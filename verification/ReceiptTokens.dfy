/**
 Tokens of the canonical JSON subset used by dependency-graph receipts. `Emit*` gives the bytes of
 a value, `Read*` reads one back at an offset, and for each token class one lemma says that a read
 returns `x` exactly when the emission of `x` stands at that offset.
 */
module ReceiptTokens {
  import opened Wrappers
  import opened Bytes
  import opened Orderings

  const MAX_FEATURES := 1_024
  const MAX_STRING_BYTES := 8_192

  /** A Unicode scalar value: any code point outside the surrogate range. */
  type Scalar = c: int | 0 <= c < 0x11_0000 && !(0xD800 <= c < 0xE000)

  type Text = seq<Scalar>

  /** Texts in code-point order, which is the order of their UTF-8 bytes. */
  function CompareText(a: Text, b: Text): Order {
    CompareSeq<int>(CompareInt, a, b)
  }

  /** A sorted set of texts, as its strictly ascending listing. */
  type TextSet = s: seq<Text> | Ascending<Text>(CompareText, s)

  datatype ReceiptError =
    | InputNotBoundedAscii
    | ExpectedToken
    | UnexpectedEnd
    | BadHexDigit
    | BadLowSurrogate
    | UnpairedLowSurrogate
    | NonCanonicalEscape
    | UnsupportedEscape
    | UnescapedByte
    | StringTooLong
    | ExpectedBoolean
    | TooManyStrings
    | ArrayNotAscending
    | ExpectedCommaOrEnd
    | UnexpectedSchema
    | UnexpectedScope
    | TooManyRows
    | TrailingBytes
    | NotCanonicalForm
    | ReceiptTooLong
    | BadDigest
    | BadLength
    | ControlCharacter
    | TooManyFeatures
    | BadFeature
    | BadNameOrVersion
    | UnboundNameAndVersion
    | UnexpectedPathDigest
    | UnboundSource
    | MissingPathDigest
    | UnboundPathDigest
    | EmptyRootName
    | BadTarget
    | BadSelector
    | ConflictingSelection
    | BadRowCount
    | RowsNotAscending
    | MissingFsLaUnit
    | MissingRootUnit

  /** A value together with the offset after it. */
  type Parsed<T> = Result<(T, nat), ReceiptError>

  // ----- Sizes -----

  /** Bytes of a scalar in UTF-8. */
  function Utf8Size(c: Scalar): (n: nat)
    ensures 1 <= n <= 4
  {
    if c < 0x80 then 1 else if c < 0x800 then 2 else if c < 0x1_0000 then 3 else 4
  }

  /** Bytes of a text in UTF-8. */
  function TextSize(text: Text): (n: nat)
    ensures |text| <= n <= 4 * |text|
  {
    if text == [] then 0 else Utf8Size(text[0]) + TextSize(text[1..])
  }

  lemma {:induction false} TextSizeConcat(a: Text, b: Text)
    ensures TextSize(a + b) == TextSize(a) + TextSize(b)
  {
    if a == [] {
      assert a + b == b;
    } else {
      TextSizeConcat(a[1..], b);
      assert (a + b)[1..] == a[1..] + b;
    }
  }

  predicate FitsText(text: Text) {
    TextSize(text) <= MAX_STRING_BYTES
  }

  predicate FitsOptional(text: Option<Text>) {
    text.Some? ==> FitsText(text.value)
  }

  predicate FitsSet(values: TextSet) {
    |values| <= MAX_FEATURES && AllFit(values)
  }

  // ----- Single bytes and fixed tokens -----

  function ReadByte(bytes: seq<uint8>, pos: nat): Parsed<uint8> {
    if pos < |bytes| then Success((bytes[pos], pos + 1)) else Failure(UnexpectedEnd)
  }

  /** The offset after a fixed token. */
  function ReadToken(bytes: seq<uint8>, pos: nat, token: seq<uint8>): (r: Result<nat, ReceiptError>)
    ensures r.Success? <==> At(bytes, pos, token)
    ensures r.Success? ==> r.value == pos + |token|
    ensures r.Failure? ==> r.error == ExpectedToken
  {
    if pos + |token| <= |bytes| && bytes[pos..pos + |token|] == token then Success(pos + |token|)
    else Failure(ExpectedToken)
  }

  lemma ByteAt(bytes: seq<uint8>, pos: nat, b: uint8)
    ensures At(bytes, pos, [b]) <==> pos < |bytes| && bytes[pos] == b
  {
  }

  lemma TwoBytesAt(bytes: seq<uint8>, pos: nat, a: uint8, b: uint8)
    ensures At(bytes, pos, [a, b]) <==> pos + 1 < |bytes| && bytes[pos] == a && bytes[pos + 1] == b
  {
    if pos + 2 <= |bytes| {
      assert bytes[pos..pos + 2] == [bytes[pos], bytes[pos + 1]];
    }
  }

  lemma FirstByteAt(bytes: seq<uint8>, pos: nat, code: seq<uint8>)
    requires code != []
    ensures At(bytes, pos, code) ==> pos < |bytes| && bytes[pos] == code[0]
  {
  }

  // ----- Four hexadecimal digits -----

  function HexDigit(d: int): (b: uint8)
    requires 0 <= d < 16
    ensures b < 0x80
  {
    if d < 10 then 48 + d else 87 + d
  }

  function HexValue(b: uint8): (r: Option<int>)
    ensures r.Some? ==> 0 <= r.value < 16
  {
    if 48 <= b <= 57 then Some(b - 48) else if 97 <= b <= 102 then Some(b - 87) else None
  }

  /** `v` without its `n` low-order hexadecimal digits. */
  function DropDigits(v: nat, n: nat): nat {
    if n == 0 then v else DropDigits(v, n - 1) / 16
  }

  /** The `count` low-order hexadecimal digits of `v`, lower case, most significant first. */
  function HexCode(v: nat, count: nat): (code: seq<uint8>)
    ensures |code| == count && IsAscii(code)
  {
    if count == 0 then [] else [HexDigit(DropDigits(v, count - 1) % 16)] + HexCode(v, count - 1)
  }

  /** Reads `count` more digits after those that make up `value`. */
  function ReadHex(bytes: seq<uint8>, pos: nat, count: nat, value: nat): (r: Parsed<nat>)
    ensures r.Success? ==> r.value.1 == pos + count
    decreases count
  {
    if count == 0 then Success((value, pos))
    else
      var (b, next) :- ReadByte(bytes, pos);
      match HexValue(b)
      case None => Failure(BadHexDigit)
      case Some(d) => ReadHex(bytes, next, count - 1, value * 16 + d)
  }

  lemma NextDigit(v: nat, value: nat, d: int)
    requires 0 <= d < 16
    ensures v == value * 16 + d <==> v / 16 == value && v % 16 == d
  {
  }

  lemma {:induction false} HexAt(bytes: seq<uint8>, pos: nat, count: nat, value: nat, v: nat)
    requires pos <= |bytes|
    ensures At(bytes, pos, HexCode(v, count)) && DropDigits(v, count) == value
            <==> ReadHex(bytes, pos, count, value) == Success((v, pos + count))
    decreases count
  {
    if count > 0 {
      HexCodeAt(bytes, pos, count, v);
      hide At, HexCode, HexValue;
      if pos < |bytes| && HexValue(bytes[pos]).Some? {
        var d := HexValue(bytes[pos]).value;
        HexAt(bytes, pos + 1, count - 1, value * 16 + d, v);
        NextDigit(DropDigits(v, count - 1), value, d);
      }
    }
  }

  lemma HexCodeAt(bytes: seq<uint8>, pos: nat, count: nat, v: nat)
    requires 0 < count
    ensures At(bytes, pos, HexCode(v, count))
            <==> && pos < |bytes|
                 && HexValue(bytes[pos]) == Some(DropDigits(v, count - 1) % 16)
                 && At(bytes, pos + 1, HexCode(v, count - 1))
  {
    var d := DropDigits(v, count - 1) % 16;
    AtConcat(bytes, pos, [HexDigit(d)], HexCode(v, count - 1));
    ByteAt(bytes, pos, HexDigit(d));
    assert HexValue(HexDigit(d)) == Some(d);
    if pos < |bytes| && HexValue(bytes[pos]) == Some(d) {
      assert bytes[pos] == HexDigit(d);
    }
  }

  lemma DropFourDigits(v: nat)
    ensures DropDigits(v, 4) == 0 <==> v < 0x1_0000
  {
    assert DropDigits(v, 1) == v / 16;
    assert DropDigits(v, 2) == v / 256;
    assert DropDigits(v, 3) == v / 4096;
  }

  function Hex4(v: uint16): (code: seq<uint8>)
    ensures |code| == 4 && IsAscii(code)
  {
    HexCode(v, 4)
  }

  /** Four digits read as `v` exactly when they are the digits of `v`. */
  lemma Hex4At(bytes: seq<uint8>, pos: nat, v: uint16)
    ensures At(bytes, pos, Hex4(v)) <==> ReadHex(bytes, pos, 4, 0) == Success((v, pos + 4))
  {
    DropFourDigits(v);
    if pos <= |bytes| {
      HexAt(bytes, pos, 4, 0, v);
    }
  }

  lemma ReadHex4Bound(bytes: seq<uint8>, pos: nat)
    ensures var r := ReadHex(bytes, pos, 4, 0); r.Success? ==> r.value.0 < 0x1_0000
  {
    var r := ReadHex(bytes, pos, 4, 0);
    if pos <= |bytes| && r.Success? {
      DropFourDigits(r.value.0);
      HexAt(bytes, pos, 4, 0, r.value.0);
    }
  }

  // ----- Characters -----

  const QUOTE: uint8 := 34
  const COMMA: uint8 := 44
  const BACKSLASH: uint8 := 92
  const CLOSE_BRACKET: uint8 := 93
  const LETTER_U: uint8 := 117

  /** The letter of a two-character escape. */
  function ShortEscape(c: Scalar): (r: Option<uint8>)
    ensures r.Some? ==> r.value < 0x80 && r.value != LETTER_U
  {
    match c
    case 34 => Some(34)
    case 92 => Some(92)
    case 8 => Some(98)
    case 12 => Some(102)
    case 10 => Some(110)
    case 13 => Some(114)
    case 9 => Some(116)
    case _ => None
  }

  /** The character named by the letter of a two-character escape. */
  function ShortEscaped(b: uint8): (r: Option<Scalar>)
    ensures r.Some? ==> ShortEscape(r.value) == Some(b)
    ensures forall c: Scalar :: ShortEscape(c) == Some(b) ==> r == Some(c)
  {
    match b
    case 34 => Some(34)
    case 92 => Some(92)
    case 98 => Some(8)
    case 102 => Some(12)
    case 110 => Some(10)
    case 114 => Some(13)
    case 116 => Some(9)
    case _ => None
  }

  /** Printable ASCII, which stands for itself unless it needs a short escape. */
  predicate Printable(c: int) {
    0x20 <= c <= 0x7E
  }

  function EmitUnicode(c: Scalar): (code: seq<uint8>)
    ensures IsAscii(code)
  {
    if c <= 0xFFFF then Hex4(c)
    else
      var scalar := c - 0x1_0000;
      Hex4(0xD800 + scalar / 1024) + [BACKSLASH, LETTER_U] + Hex4(0xDC00 + scalar % 1024)
  }

  function EmitChar(c: Scalar): (code: seq<uint8>)
    ensures IsAscii(code) && code != []
  {
    match ShortEscape(c)
    case Some(letter) => [BACKSLASH, letter]
    case None => if Printable(c) then [c] else [BACKSLASH, LETTER_U] + EmitUnicode(c)
  }

  /** What follows `\u`: one code unit, or a high and a low surrogate. */
  function ReadCodePoint(bytes: seq<uint8>, pos: nat): (r: Parsed<Scalar>)
    ensures r.Success? ==> r.value.1 == pos + |EmitUnicode(r.value.0)|
  {
    var (high, p1) :- ReadHex(bytes, pos, 4, 0);
    ReadHex4Bound(bytes, pos);
    if 0xD800 <= high <= 0xDBFF then
      var p2 :- ReadToken(bytes, p1, [BACKSLASH, LETTER_U]);
      var (low, p3) :- ReadHex(bytes, p2, 4, 0);
      if !(0xDC00 <= low <= 0xDFFF) then Failure(BadLowSurrogate)
      else Success((0x1_0000 + (high - 0xD800) * 1024 + (low - 0xDC00), p3))
    else if 0xDC00 <= high <= 0xDFFF then Failure(UnpairedLowSurrogate)
    else Success((high, p1))
  }

  lemma CodePointAt(bytes: seq<uint8>, pos: nat, c: Scalar)
    ensures At(bytes, pos, EmitUnicode(c))
            <==> ReadCodePoint(bytes, pos) == Success((c, pos + |EmitUnicode(c)|))
  {
    hide Hex4, ReadHex, At;
    ReadHex4Bound(bytes, pos);
    if c <= 0xFFFF {
      Hex4At(bytes, pos, c);
    } else {
      var high, low := 0xD800 + (c - 0x1_0000) / 1024, 0xDC00 + (c - 0x1_0000) % 1024;
      AtConcat(bytes, pos, Hex4(high) + [BACKSLASH, LETTER_U], Hex4(low));
      AtConcat(bytes, pos, Hex4(high), [BACKSLASH, LETTER_U]);
      Hex4At(bytes, pos, high);
      Hex4At(bytes, pos + 6, low);
    }
  }

  /** What follows a backslash. */
  function ReadEscape(bytes: seq<uint8>, pos: nat): Parsed<Scalar> {
    var (b, p1) :- ReadByte(bytes, pos);
    match ShortEscaped(b)
    case Some(c) => Success((c, p1))
    case None =>
      if b != LETTER_U then Failure(UnsupportedEscape)
      else
        var (c, p2) :- ReadCodePoint(bytes, p1);
        if Printable(c) || c in {8, 9, 10, 12, 13} then Failure(NonCanonicalEscape) else Success((c, p2))
  }

  /** The next character of a string, or `None` at its closing quote. */
  function ReadChar(bytes: seq<uint8>, pos: nat): (r: Parsed<Option<Scalar>>)
    ensures r.Success? ==> pos < |bytes|
    ensures r.Success? ==> r.value.1 == pos + if r.value.0.Some? then |EmitChar(r.value.0.value)| else 1
  {
    var (b, p1) :- ReadByte(bytes, pos);
    if b == QUOTE then Success((None, p1))
    else if b == BACKSLASH then
      var (c, p2) :- ReadEscape(bytes, p1);
      Success((Some(c), p2))
    else if Printable(b) then Success((Some(b), p1))
    else Failure(UnescapedByte)
  }

  lemma EscapeAt(bytes: seq<uint8>, pos: nat, c: Scalar)
    requires ShortEscape(c).Some? || !Printable(c)
    ensures At(bytes, pos, EmitChar(c))
            <==> && pos < |bytes|
                 && bytes[pos] == BACKSLASH
                 && ReadEscape(bytes, pos + 1) == Success((c, pos + |EmitChar(c)|))
  {
    hide EmitUnicode, ReadCodePoint;
    match ShortEscape(c) {
      case Some(letter) =>
        TwoBytesAt(bytes, pos, BACKSLASH, letter);
      case None =>
        TwoBytesAt(bytes, pos, BACKSLASH, LETTER_U);
        AtConcat(bytes, pos, [BACKSLASH, LETTER_U], EmitUnicode(c));
        CodePointAt(bytes, pos + 2, c);
        hide At;
    }
  }

  /** Every character has exactly one accepted spelling, the emitted one. */
  lemma CharAt(bytes: seq<uint8>, pos: nat, c: Scalar)
    ensures At(bytes, pos, EmitChar(c)) <==> ReadChar(bytes, pos) == Success((Some(c), pos + |EmitChar(c)|))
  {
    if ShortEscape(c).None? && Printable(c) {
      ByteAt(bytes, pos, c);
      hide At;
    } else {
      EscapeAt(bytes, pos, c);
      hide At, EmitChar;
    }
  }

  // ----- Strings -----

  /** The characters of a string and its closing quote. */
  function EmitChars(text: Text): (code: seq<uint8>)
    ensures IsAscii(code)
  {
    if text == [] then [QUOTE] else EmitChar(text[0]) + EmitChars(text[1..])
  }

  function EmitString(text: Text): (code: seq<uint8>)
    ensures IsAscii(code)
  {
    [QUOTE] + EmitChars(text)
  }

  /** Reads the rest of a string that may take up at most `room` more UTF-8 bytes. */
  function ReadChars(bytes: seq<uint8>, pos: nat, room: int): (r: Parsed<Text>)
    ensures r.Success? ==> r.value.1 == pos + |EmitChars(r.value.0)|
    decreases |bytes| - pos
  {
    var (next, p1) :- ReadChar(bytes, pos);
    match next
    case None => Success(([], p1))
    case Some(c) =>
      if Utf8Size(c) > room then Failure(StringTooLong)
      else
        assert p1 > pos && pos < |bytes|;
        var (rest, p2) :- ReadChars(bytes, p1, room - Utf8Size(c));
        assert ([c] + rest)[1..] == rest;
        Success(([c] + rest, p2))
  }

  function ReadString(bytes: seq<uint8>, pos: nat): (r: Parsed<Text>)
    ensures r.Success? ==> r.value.1 == pos + |EmitString(r.value.0)|
  {
    var p1 :- ReadToken(bytes, pos, [QUOTE]);
    ReadChars(bytes, p1, MAX_STRING_BYTES)
  }

  lemma CloseAt(bytes: seq<uint8>, pos: nat)
    ensures At(bytes, pos, [QUOTE]) <==> ReadChar(bytes, pos) == Success((None, pos + 1))
  {
    ByteAt(bytes, pos, QUOTE);
  }

  lemma {:induction false} CharsAt(bytes: seq<uint8>, pos: nat, room: nat, text: Text)
    ensures At(bytes, pos, EmitChars(text)) && TextSize(text) <= room
            <==> ReadChars(bytes, pos, room) == Success((text, pos + |EmitChars(text)|))
    decreases |text|
  {
    hide At, ReadChar, EmitChar, Utf8Size;
    if text == [] {
      CloseAt(bytes, pos);
    } else {
      var c, rest, p1 := text[0], text[1..], pos + |EmitChar(text[0])|;
      CharAt(bytes, pos, c);
      AtConcat(bytes, pos, EmitChar(c), EmitChars(rest));
      if Utf8Size(c) <= room {
        CharsAt(bytes, p1, room - Utf8Size(c), rest);
      }
      assert text == [c] + rest;
    }
  }

  /** A string is read exactly when its one canonical spelling stands there and it fits the bound. */
  lemma StringAt(bytes: seq<uint8>, pos: nat, text: Text)
    ensures At(bytes, pos, EmitString(text)) && FitsText(text)
            <==> ReadString(bytes, pos) == Success((text, pos + |EmitString(text)|))
  {
    hide EmitChars, ReadChars, TextSize;
    AtConcat(bytes, pos, [QUOTE], EmitChars(text));
    CharsAt(bytes, pos + 1, MAX_STRING_BYTES, text);
    hide At;
  }

  // ----- Optional strings, booleans -----

  function EmitOptional(text: Option<Text>): (code: seq<uint8>)
    ensures IsAscii(code)
  {
    if text.Some? then EmitString(text.value) else AsciiBytes("null")
  }

  function ReadOptional(bytes: seq<uint8>, pos: nat): (r: Parsed<Option<Text>>)
    ensures r.Success? ==> r.value.1 == pos + |EmitOptional(r.value.0)|
  {
    if ReadToken(bytes, pos, AsciiBytes("null")).Success? then Success((None, pos + 4))
    else
      var (text, p1) :- ReadString(bytes, pos);
      Success((Some(text), p1))
  }

  lemma OptionalAt(bytes: seq<uint8>, pos: nat, text: Option<Text>)
    ensures At(bytes, pos, EmitOptional(text)) && FitsOptional(text)
            <==> ReadOptional(bytes, pos) == Success((text, pos + |EmitOptional(text)|))
  {
    hide EmitChars, ReadString, FitsText;
    assert AsciiBytes("null")[0] == 110;
    FirstByteAt(bytes, pos, AsciiBytes("null"));
    if text.Some? {
      StringAt(bytes, pos, text.value);
      FirstByteAt(bytes, pos, EmitString(text.value));
      hide At;
    }
  }

  function EmitBool(b: bool): (code: seq<uint8>)
    ensures IsAscii(code)
  {
    if b then AsciiBytes("true") else AsciiBytes("false")
  }

  function ReadBool(bytes: seq<uint8>, pos: nat): (r: Parsed<bool>)
    ensures r.Success? ==> r.value.1 == pos + |EmitBool(r.value.0)|
  {
    if ReadToken(bytes, pos, AsciiBytes("true")).Success? then Success((true, pos + 4))
    else if ReadToken(bytes, pos, AsciiBytes("false")).Success? then Success((false, pos + 5))
    else Failure(ExpectedBoolean)
  }

  lemma BoolAt(bytes: seq<uint8>, pos: nat, b: bool)
    ensures At(bytes, pos, EmitBool(b)) <==> ReadBool(bytes, pos) == Success((b, pos + |EmitBool(b)|))
  {
    assert AsciiBytes("true")[0] == 116 && AsciiBytes("false")[0] == 102;
    FirstByteAt(bytes, pos, AsciiBytes("true"));
    FirstByteAt(bytes, pos, AsciiBytes("false"));
    hide At;
  }

  // ----- Sorted string arrays -----

  /** The elements of a non-empty array and its closing bracket. */
  function EmitItems(values: seq<Text>): (code: seq<uint8>)
    requires values != []
    ensures IsAscii(code) && code != [] && code[0] == QUOTE
  {
    EmitString(values[0]) + if |values| == 1 then [CLOSE_BRACKET] else [COMMA] + EmitItems(values[1..])
  }

  function EmitSet(values: seq<Text>): (code: seq<uint8>)
    ensures IsAscii(code)
  {
    AsciiBytes("[") + if values == [] then [CLOSE_BRACKET] else EmitItems(values)
  }

  /** `value` may follow `last` in a sorted array. */
  predicate Follows(last: Option<Text>, value: Text) {
    last.Some? ==> CompareText(last.value, value) == Less
  }

  lemma ConsAscends(value: Text, rest: seq<Text>)
    ensures Ascending<Text>(CompareText, [value] + rest)
            <==> Ascending<Text>(CompareText, rest) && (rest != [] ==> Follows(Some(value), rest[0]))
  {
    AscendingCons<Text>(CompareText, value, rest);
  }

  /** Reads at most `room` more elements, the first of them above `last`. */
  function ReadItems(bytes: seq<uint8>, pos: nat, last: Option<Text>, room: nat): (r: Parsed<TextSet>)
    ensures r.Success? ==> r.value.0 != [] && Follows(last, r.value.0[0])
    ensures r.Success? ==> r.value.1 == pos + |EmitItems(r.value.0)|
    decreases room
  {
    hide ReadString, EmitString, Follows, Ascending;
    if room == 0 then Failure(TooManyStrings)
    else
      var (value, p1) :- ReadString(bytes, pos);
      if !Follows(last, value) then Failure(ArrayNotAscending)
      else
        var (b, p2) :- ReadByte(bytes, p1);
        if b == COMMA then
          var (rest, p3) :- ReadItems(bytes, p2, Some(value), room - 1);
          assert ([value] + rest)[1..] == rest;
          ConsAscends(value, rest);
          Success(([value] + rest, p3))
        else if b == CLOSE_BRACKET then
          ConsAscends(value, []);
          assert [value] + [] == [value];
          Success(([value], p2))
        else Failure(ExpectedCommaOrEnd)
  }

  function ReadSet(bytes: seq<uint8>, pos: nat): (r: Parsed<TextSet>)
    ensures r.Success? ==> r.value.1 == pos + |EmitSet(r.value.0)|
  {
    var p1 :- ReadToken(bytes, pos, AsciiBytes("["));
    if p1 < |bytes| && bytes[p1] == CLOSE_BRACKET then Success(([], p1 + 1))
    else ReadItems(bytes, p1, None, MAX_FEATURES)
  }

  /** Every element fits the string bound. */
  predicate AllFit(values: seq<Text>) {
    forall v :: v in values ==> FitsText(v)
  }

  lemma AllFitSplit(values: seq<Text>)
    requires values != []
    ensures AllFit(values) <==> FitsText(values[0]) && AllFit(values[1..])
    ensures AllFit([])
  {
    assert values == [values[0]] + values[1..];
  }

  /** A non-empty array: its first element, then a bracket, or a comma and the other elements. */
  lemma ItemsLayout(bytes: seq<uint8>, pos: nat, values: seq<Text>)
    requires values != []
    ensures var p1, rest := pos + |EmitString(values[0])|, values[1..];
            if rest == [] then
              && |EmitItems(values)| == |EmitString(values[0])| + 1
              && (At(bytes, pos, EmitItems(values))
                  <==> At(bytes, pos, EmitString(values[0])) && p1 < |bytes| && bytes[p1] == CLOSE_BRACKET)
            else
              && |EmitItems(values)| == |EmitString(values[0])| + 1 + |EmitItems(rest)|
              && (At(bytes, pos, EmitItems(values))
                  <==> && At(bytes, pos, EmitString(values[0]))
                       && p1 < |bytes| && bytes[p1] == COMMA
                       && At(bytes, p1 + 1, EmitItems(rest)))
  {
    hide At, EmitString, IsAscii;
    var code, p1, rest := EmitString(values[0]), pos + |EmitString(values[0])|, values[1..];
    if |values| == 1 {
      assert EmitItems(values) == code + [CLOSE_BRACKET];
      AtConcat(bytes, pos, code, [CLOSE_BRACKET]);
      ByteAt(bytes, p1, CLOSE_BRACKET);
    } else {
      assert EmitItems(values) == code + ([COMMA] + EmitItems(rest));
      hide EmitItems;
      AtConcat(bytes, pos, code, [COMMA] + EmitItems(rest));
      AtConcat(bytes, p1, [COMMA], EmitItems(rest));
      ByteAt(bytes, p1, COMMA);
    }
  }

  lemma {:induction false} ItemsAt(bytes: seq<uint8>, pos: nat, last: Option<Text>, room: nat, values: TextSet)
    requires values != []
    ensures && At(bytes, pos, EmitItems(values))
            && Follows(last, values[0]) && |values| <= room && AllFit(values)
            <==> ReadItems(bytes, pos, last, room) == Success((values, pos + |EmitItems(values)|))
    decreases |values|
  {
    hide At, EmitItems, ReadString, EmitString, FitsText, AllFit, Follows, CompareText, IsAscii, Ascending;
    var first, rest := values[0], values[1..];
    assert values == [first] + rest;
    ConsAscends(first, rest);
    AllFitSplit(values);
    StringAt(bytes, pos, first);
    ItemsLayout(bytes, pos, values);
    var r, p1 := ReadItems(bytes, pos, last, room), pos + |EmitString(first)|;
    assert r.Success? ==> r.value.0[0] == ReadString(bytes, pos).value.0;
    assert rest == [] ==> values == [first];
    if rest != [] && room > 0 {
      ItemsAt(bytes, p1 + 1, Some(first), room - 1, rest);
      if ReadString(bytes, pos) == Success((first, p1)) && p1 < |bytes| && bytes[p1] == COMMA && r.Success? {
        assert r.value.0[1..] == ReadItems(bytes, p1 + 1, Some(first), room - 1).value.0;
      }
    }
  }

  /** A sorted array is read exactly when its canonical form stands there and it fits the bounds. */
  lemma SetAt(bytes: seq<uint8>, pos: nat, values: TextSet)
    ensures At(bytes, pos, EmitSet(values)) && FitsSet(values)
            <==> ReadSet(bytes, pos) == Success((values, pos + |EmitSet(values)|))
  {
    hide EmitItems, ReadItems, FitsText;
    var p1 := pos + 1;
    if values == [] {
      AtConcat(bytes, pos, AsciiBytes("["), [CLOSE_BRACKET]);
      ByteAt(bytes, p1, CLOSE_BRACKET);
    } else {
      AtConcat(bytes, pos, AsciiBytes("["), EmitItems(values));
      ItemsAt(bytes, p1, None, MAX_FEATURES, values);
      FirstByteAt(bytes, p1, EmitItems(values));
      hide At;
    }
  }
}

/** The receipt validator, printer and parser as they run: loops over a growing buffer and a moving cursor. */
module ReceiptProgram {
  import opened Wrappers
  import opened Bytes
  import opened Orderings
  import opened ReceiptTokens
  import opened ReceiptFormat
  import opened ReceiptValidity
  import opened ReceiptRoundTrip

  // ----- Validation -----

  /** One pass over the package rows, remembering the previous row and two flags. */
  method CheckUnits(receipt: Receipt) returns (r: Check)
    requires 1 <= |receipt.packages| <= MAX_PACKAGES
    ensures r == match ValidateRows(None, receipt.packages)
                 case Failure(e) => Failure(e)
                 case Success(_) =>
                   if forall row :: row in receipt.packages ==> row.identity.name != FsLa() then Failure(MissingFsLaUnit)
                   else if receipt.root.identity.name == FsLa() && receipt.root !in receipt.packages then
                     Failure(MissingRootUnit)
                   else Success(())
  {
    hide ValidateIdentity, ValidateFeatures, CompareRow, FsLa;
    var rows := receipt.packages;
    var previous: Option<PackageRow> := None;
    var sawFsLa, sawRootUnit := false, false;
    var i := 0;
    assert rows[0..] == rows;
    while i < |rows|
      invariant 0 <= i <= |rows|
      invariant ValidateRows(previous, rows[i..]) == ValidateRows(None, rows)
      invariant sawFsLa <==> exists k :: 0 <= k < i && rows[k].identity.name == FsLa()
      invariant sawRootUnit <==> exists k :: 0 <= k < i && rows[k] == receipt.root
    {
      var row := rows[i];
      assert rows[i..][0] == row && rows[i..][1..] == rows[i + 1..];
      var _ :- ValidateIdentity(row.identity);
      var _ :- ValidateFeatures(row.features);
      if previous.Some? && CompareRow(previous.value, row) != Less {
        return Failure(RowsNotAscending);
      }
      if row.identity.name == FsLa() {
        sawFsLa := true;
      }
      if row.identity == receipt.root.identity && row.features == receipt.root.features {
        sawRootUnit := true;
      }
      previous := Some(row);
      i := i + 1;
    }
    assert rows[i..] == [];
    assert sawFsLa <==> exists row :: row in rows && row.identity.name == FsLa();
    assert sawRootUnit <==> receipt.root in rows;
    if !sawFsLa {
      return Failure(MissingFsLaUnit);
    }
    if receipt.root.identity.name == FsLa() && !sawRootUnit {
      return Failure(MissingRootUnit);
    }
    return Success(());
  }

  method CheckReceipt(receipt: Receipt) returns (r: Check)
    ensures r == Validate(receipt)
    ensures r.Success? <==> GoodReceipt(receipt)
    ensures r.Failure? ==> ReceiptFault(receipt, r.error)
  {
    hide GoodReceipt, ReceiptFault;
    ReceiptIsValidWhenGood(receipt);
    if Validate(receipt).Failure? {
      RefusalIsTrue(receipt);
    }
    hide IsDigest, ValidateString, ValidateIdentity, ValidateFeatures, ValidateSelection, ValidateRows, FsLa;
    if !IsDigest(receipt.cargo.executableDigest) {
      return Failure(BadDigest);
    }
    var _ :- ValidateString(receipt.cargo.version, true);
    var _ :- ValidateIdentity(receipt.root.identity);
    var _ :- ValidateFeatures(receipt.root.features);
    if receipt.root.identity.name == [] {
      return Failure(EmptyRootName);
    }
    var _ :- ValidateSelection(receipt.selection);
    if !(1 <= |receipt.packages| <= MAX_PACKAGES) {
      return Failure(BadRowCount);
    }
    r := CheckUnits(receipt);
  }

  // ----- Printing -----

  /** An append-only output text. */
  class Printer {
    var out: seq<uint8>

    constructor ()
      ensures out == []
    {
      out := [];
    }

    method Push(code: seq<uint8>)
      modifies this
      ensures out == old(out) + code
    {
      out := out + code;
    }

    method PushChar(c: Scalar)
      modifies this
      ensures out == old(out) + EmitChar(c)
    {
      match c {
        case 34 => Push([BACKSLASH, 34]);
        case 92 => Push([BACKSLASH, 92]);
        case 8 => Push([BACKSLASH, 98]);
        case 12 => Push([BACKSLASH, 102]);
        case 10 => Push([BACKSLASH, 110]);
        case 13 => Push([BACKSLASH, 114]);
        case 9 => Push([BACKSLASH, 116]);
        case _ =>
          if 0x20 <= c <= 0x7E {
            Push([c]);
          } else if c <= 0xFFFF {
            Push([BACKSLASH, LETTER_U] + Hex4(c));
          } else {
            var scalar := c - 0x1_0000;
            var high, low := 0xD800 + scalar / 1024, 0xDC00 + scalar % 1024;
            Push([BACKSLASH, LETTER_U] + (Hex4(high) + [BACKSLASH, LETTER_U] + Hex4(low)));
          }
      }
    }

    method PushJsonString(text: Text)
      modifies this
      ensures out == old(out) + EmitString(text)
    {
      hide EmitChar;
      Push([QUOTE]);
      var i := 0;
      assert text[0..] == text;
      AppendShifts(old(out), [QUOTE], EmitChars(text));
      while i < |text|
        invariant 0 <= i <= |text|
        invariant out + EmitChars(text[i..]) == old(out) + EmitString(text)
      {
        assert text[i..][0] == text[i] && text[i..][1..] == text[i + 1..];
        AppendShifts(out, EmitChar(text[i]), EmitChars(text[i + 1..]));
        PushChar(text[i]);
        i := i + 1;
      }
      assert text[i..] == [];
      Push([QUOTE]);
    }

    method PushOptional(text: Option<Text>)
      modifies this
      ensures out == old(out) + EmitOptional(text)
    {
      if text.Some? {
        PushJsonString(text.value);
      } else {
        Push(AsciiBytes("null"));
      }
    }

    method PushStringArray(values: TextSet)
      modifies this
      ensures out == old(out) + EmitSet(values)
    {
      hide EmitString, EmitItems, RestOfArray, EmitSet, AsciiBytes, IsAscii;
      ArrayStart(out, values);
      Push(AsciiBytes("["));
      var separator: seq<uint8> := [];
      var i := 0;
      ghost var total := old(out) + EmitSet(values);
      assert values[0..] == values;
      while i < |values|
        invariant 0 <= i <= |values|
        invariant separator == if i == 0 then [] else [COMMA]
        invariant out + RestOfArray(separator, values[i..]) == total
      {
        assert values[i..] == [values[i]] + values[i + 1..];
        ArrayStep(out, separator, values[i], values[i + 1..]);
        Push(separator);
        PushJsonString(values[i]);
        separator := [COMMA];
        i := i + 1;
      }
      assert values[i..] == [];
      Push([CLOSE_BRACKET]);
    }

    method PushField(key: string, text: Text)
      modifies this
      ensures out == old(out) + EmitField(key, text)
    {
      hide EmitString;
      Push(AsciiBytes(key));
      PushJsonString(text);
    }

    method PushOptionalField(key: string, text: Option<Text>)
      modifies this
      ensures out == old(out) + EmitOptionalField(key, text)
    {
      hide EmitOptional;
      Push(AsciiBytes(key));
      PushOptional(text);
    }

    method PushSetField(key: string, values: TextSet)
      modifies this
      ensures out == old(out) + EmitSetField(key, values)
    {
      hide EmitSet;
      Push(AsciiBytes(key));
      PushStringArray(values);
    }

    method PushBoolField(key: string, b: bool)
      modifies this
      ensures out == old(out) + EmitBoolField(key, b)
    {
      Push(AsciiBytes(key));
      Push(EmitBool(b));
    }

    method PushIdentity(id: PackageIdentity)
      modifies this
      ensures out == old(out) + EmitIdentity(id)
    {
      hide EmitField, EmitOptionalField, IsAscii;
      PushField("\"name\":", id.name);
      PushField(",\"version\":", id.version);
      PushField(",\"package_id\":", id.packageId);
      assert out == old(out) + EmitCoordinates(id);
      PushOptionalField(",\"source_id\":", id.sourceId);
      PushOptionalField(",\"path_digest\":", id.pathDigest);
    }

    method PushUnit(row: PackageRow)
      modifies this
      ensures out == old(out) + EmitUnit(row)
    {
      hide EmitIdentity, EmitSetField, IsAscii;
      PushIdentity(row.identity);
      PushSetField(",\"features\":", row.features);
    }

    method PushSelection(selection: Selection)
      modifies this
      ensures out == old(out) + EmitSelection(selection)
    {
      hide EmitOptionalField, EmitSetField, EmitBoolField, IsAscii;
      PushOptionalField("},\"selection\":{\"target\":", selection.target);
      PushSetField(",\"features\":", selection.features);
      PushBoolField(",\"all_features\":", selection.allFeatures);
      PushBoolField(",\"default_features\":", selection.defaultFeatures);
    }

    method PushPackages(rows: seq<PackageRow>)
      modifies this
      ensures out == old(out) + EmitPackages(rows)
    {
      hide EmitUnit, EmitRows, RestOfRows, EmitPackages, AsciiBytes, IsAscii;
      RowsStart(out, rows);
      Push(AsciiBytes("},\"packages\":["));
      var separator: seq<uint8> := [];
      var i := 0;
      ghost var total := old(out) + EmitPackages(rows);
      assert rows[0..] == rows;
      while i < |rows|
        invariant 0 <= i <= |rows|
        invariant separator == if i == 0 then [] else [COMMA]
        invariant out + RestOfRows(separator, rows[i..]) == total
      {
        assert rows[i..] == [rows[i]] + rows[i + 1..];
        RowStep(out, separator, rows[i], rows[i + 1..]);
        Push(separator);
        Push([OPEN_BRACE]);
        PushUnit(rows[i]);
        Push([CLOSE_BRACE]);
        separator := [COMMA];
        i := i + 1;
      }
      assert rows[i..] == [];
      Push([CLOSE_BRACKET]);
    }
  }

  /** What remains to be pushed when `values` remain and `separator` goes before the next of them. */
  function RestOfArray(separator: seq<uint8>, values: seq<Text>): seq<uint8> {
    if values == [] then [CLOSE_BRACKET] else separator + EmitItems(values)
  }

  lemma ArrayStart(out: seq<uint8>, values: seq<Text>)
    ensures out + EmitSet(values) == out + AsciiBytes("[") + RestOfArray([], values)
    ensures RestOfArray([COMMA], []) == [CLOSE_BRACKET] && RestOfArray([], []) == [CLOSE_BRACKET]
  {
    hide EmitItems, AsciiBytes, IsAscii;
    assert values != [] ==> [] + EmitItems(values) == EmitItems(values);
    AppendShifts(out, AsciiBytes("["), RestOfArray([], values));
  }

  lemma ArrayStep(out: seq<uint8>, separator: seq<uint8>, value: Text, rest: seq<Text>)
    ensures out + RestOfArray(separator, [value] + rest)
            == out + separator + EmitString(value) + RestOfArray([COMMA], rest)
  {
    hide EmitString;
    assert ([value] + rest)[1..] == rest;
    assert EmitItems([value] + rest) == EmitString(value) + RestOfArray([COMMA], rest);
    AppendShifts(out, separator, EmitString(value) + RestOfArray([COMMA], rest));
    AppendShifts(out + separator, EmitString(value), RestOfArray([COMMA], rest));
  }

  /** What remains to be pushed when `rows` remain and `separator` goes before the next of them. */
  function RestOfRows(separator: seq<uint8>, rows: seq<PackageRow>): seq<uint8> {
    if rows == [] then [CLOSE_BRACKET] else separator + EmitRows(rows)
  }

  lemma RowsStart(out: seq<uint8>, rows: seq<PackageRow>)
    ensures out + EmitPackages(rows) == out + AsciiBytes("},\"packages\":[") + RestOfRows([], rows)
    ensures RestOfRows([COMMA], []) == [CLOSE_BRACKET] && RestOfRows([], []) == [CLOSE_BRACKET]
  {
    hide EmitRows, AsciiBytes, IsAscii;
    assert rows != [] ==> [] + EmitRows(rows) == EmitRows(rows);
    AppendShifts(out, AsciiBytes("},\"packages\":["), RestOfRows([], rows));
  }

  lemma RowStep(out: seq<uint8>, separator: seq<uint8>, row: PackageRow, rest: seq<PackageRow>)
    ensures out + RestOfRows(separator, [row] + rest)
            == out + separator + [OPEN_BRACE] + EmitUnit(row) + [CLOSE_BRACE] + RestOfRows([COMMA], rest)
  {
    hide EmitUnit, IsAscii;
    var tail := RestOfRows([COMMA], rest);
    assert ([row] + rest)[1..] == rest;
    assert EmitRows([row] + rest) == EmitRow(row) + tail;
    hide EmitRows, RestOfRows;
    AppendShifts(out, separator, EmitRow(row) + tail);
    AppendShifts(out + separator, EmitRow(row), tail);
    AppendShifts(out + separator, [OPEN_BRACE], EmitUnit(row) + [CLOSE_BRACE]);
    AppendShifts(out + separator + [OPEN_BRACE], EmitUnit(row), [CLOSE_BRACE]);
  }

  lemma Regroup(a: seq<uint8>, b: seq<uint8>, c: seq<uint8>, d: seq<uint8>, e: seq<uint8>, f: seq<uint8>)
    ensures a + b + c + d + e + f == a + (b + (c + (d + (e + f))))
  {
  }

  method EmitText(receipt: Receipt) returns (r: Result<seq<uint8>, ReceiptError>)
    ensures r == Emit(receipt)
  {
    hide EmitField, EmitUnit, EmitSelection, EmitPackages, Validate, IsAscii, GoodReceipt, ReceiptFault;
    var _ :- CheckReceipt(receipt);
    var printer := new Printer();
    printer.PushField("{\"schema\":", AsciiBytes(SCHEMA));
    printer.PushField(",\"scope\":", AsciiBytes(SCOPE));
    assert printer.out == EmitHeader();
    printer.PushField(",\"cargo\":{\"executable_digest\":", receipt.cargo.executableDigest);
    printer.PushField(",\"version\":", receipt.cargo.version);
    assert printer.out == EmitHeader() + EmitCargo(receipt.cargo);
    ghost var before := printer.out;
    printer.Push(AsciiBytes("},\"root\":{"));
    printer.PushUnit(receipt.root);
    assert printer.out == before + EmitRoot(receipt.root);
    hide EmitHeader, EmitCargo, EmitRoot;
    printer.PushSelection(receipt.selection);
    printer.PushPackages(receipt.packages);
    printer.Push([CLOSE_BRACE]);
    Regroup(EmitHeader(), EmitCargo(receipt.cargo), EmitRoot(receipt.root), EmitSelection(receipt.selection),
            EmitPackages(receipt.packages), [CLOSE_BRACE]);
    assert printer.out == EmitReceipt(receipt);
    if |printer.out| > MAX_RECEIPT_BYTES {
      return Failure(ReceiptTooLong);
    }
    return Success(printer.out);
  }

  // ----- Parsing -----

  /** A cursor over the input text. */
  class Parser {
    const bytes: seq<uint8>
    var cursor: nat

    constructor (bytes: seq<uint8>)
      ensures this.bytes == bytes && cursor == 0
    {
      this.bytes := bytes;
      cursor := 0;
    }

    method Expect(token: seq<uint8>) returns (r: Result<(), ReceiptError>)
      modifies this
      ensures match ReadToken(bytes, old(cursor), token)
              case Success(next) => r == Success(()) && cursor == next
              case Failure(error) => r == Failure(error)
    {
      if cursor + |token| <= |bytes| && bytes[cursor..cursor + |token|] == token {
        cursor := cursor + |token|;
        return Success(());
      }
      return Failure(ExpectedToken);
    }

    method Byte() returns (r: Result<uint8, ReceiptError>)
      modifies this
      ensures Reads(ReadByte(bytes, old(cursor)), r, cursor)
    {
      if cursor >= |bytes| {
        return Failure(UnexpectedEnd);
      }
      r := Success(bytes[cursor]);
      cursor := cursor + 1;
    }

    method FourHexDigits() returns (r: Result<uint16, ReceiptError>)
      modifies this
      ensures Reads(ReadHex(bytes, old(cursor), 4, 0), r, cursor)
    {
      ReadHex4Bound(bytes, cursor);
      var value: nat := 0;
      for i := 0 to 4
        invariant ReadHex(bytes, cursor, 4 - i, value) == ReadHex(bytes, old(cursor), 4, 0)
      {
        var b :- Byte();
        var digit := HexValue(b);
        if digit.None? {
          return Failure(BadHexDigit);
        }
        value := value * 16 + digit.value;
      }
      return Success(value);
    }

    method CodePoint() returns (r: Result<Scalar, ReceiptError>)
      modifies this
      ensures Reads(ReadCodePoint(bytes, old(cursor)), r, cursor)
    {
      hide ReadHex;
      var high: nat :- FourHexDigits();
      if 0xD800 <= high <= 0xDBFF {
        var _ :- Expect([BACKSLASH, LETTER_U]);
        var low: nat :- FourHexDigits();
        if !(0xDC00 <= low <= 0xDFFF) {
          return Failure(BadLowSurrogate);
        }
        return Success(0x1_0000 + (high - 0xD800) * 1024 + (low - 0xDC00));
      }
      if 0xDC00 <= high <= 0xDFFF {
        return Failure(UnpairedLowSurrogate);
      }
      return Success(high);
    }

    method Escape() returns (r: Result<Scalar, ReceiptError>)
      modifies this
      ensures Reads(ReadEscape(bytes, old(cursor)), r, cursor)
    {
      hide ReadCodePoint;
      var b :- Byte();
      match b {
        case 34 => return Success(34);
        case 92 => return Success(92);
        case 98 => return Success(8);
        case 102 => return Success(12);
        case 110 => return Success(10);
        case 114 => return Success(13);
        case 116 => return Success(9);
        case 117 =>
          var c :- CodePoint();
          if 0x20 <= c <= 0x7E || c in {8, 9, 10, 12, 13} {
            return Failure(NonCanonicalEscape);
          }
          return Success(c);
        case _ => return Failure(UnsupportedEscape);
      }
    }

    /** The next character, or `None` at the closing quote. */
    method Character() returns (r: Result<Option<Scalar>, ReceiptError>)
      modifies this
      ensures Reads(ReadChar(bytes, old(cursor)), r, cursor)
    {
      hide ReadEscape, EmitChar;
      var b :- Byte();
      if b == QUOTE {
        return Success(None);
      } else if b == BACKSLASH {
        var c :- Escape();
        return Success(Some(c));
      } else if 0x20 <= b <= 0x7E {
        return Success(Some(b));
      }
      return Failure(UnescapedByte);
    }

    method String() returns (r: Result<Text, ReceiptError>)
      modifies this
      ensures Reads(ReadString(bytes, old(cursor)), r, cursor)
    {
      hide ReadChar, EmitChar, EmitChars, EmitString, Utf8Size, TextSize, IsAscii;
      var _ :- Expect([QUOTE]);
      var text: Text := [];
      ghost var start := cursor;
      AfterNothing(ReadChars(bytes, start, MAX_STRING_BYTES));
      EmptySize();
      while true
        invariant TextSize(text) <= MAX_STRING_BYTES
        invariant ReadChars(bytes, start, MAX_STRING_BYTES)
                  == After(text, ReadChars(bytes, cursor, MAX_STRING_BYTES - TextSize(text)))
        decreases |bytes| - cursor
      {
        var next :- Character();
        if next.None? {
          assert text + [] == text;
          return Success(text);
        }
        var c := next.value;
        AfterStep(text, c, ReadChars(bytes, cursor, MAX_STRING_BYTES - TextSize(text) - Utf8Size(c)));
        text := text + [c];
        if TextSize(text) > MAX_STRING_BYTES {
          return Failure(StringTooLong);
        }
      }
    }

    method OptionalString() returns (r: Result<Option<Text>, ReceiptError>)
      modifies this
      ensures Reads(ReadOptional(bytes, old(cursor)), r, cursor)
    {
      hide ReadString;
      if cursor + 4 <= |bytes| && bytes[cursor..cursor + 4] == AsciiBytes("null") {
        cursor := cursor + 4;
        return Success(None);
      }
      var text :- String();
      return Success(Some(text));
    }

    method Boolean() returns (r: Result<bool, ReceiptError>)
      modifies this
      ensures Reads(ReadBool(bytes, old(cursor)), r, cursor)
    {
      if cursor + 4 <= |bytes| && bytes[cursor..cursor + 4] == AsciiBytes("true") {
        cursor := cursor + 4;
        return Success(true);
      } else if cursor + 5 <= |bytes| && bytes[cursor..cursor + 5] == AsciiBytes("false") {
        cursor := cursor + 5;
        return Success(false);
      }
      return Failure(ExpectedBoolean);
    }

    method Strings() returns (r: Result<TextSet, ReceiptError>)
      modifies this
      ensures Reads(ReadSet(bytes, old(cursor)), r, cursor)
    {
      hide ReadString, EmitItems, EmitSet, Follows, Ascending;
      var _ :- Expect(AsciiBytes("["));
      NoTexts();
      if cursor < |bytes| && bytes[cursor] == CLOSE_BRACKET {
        cursor := cursor + 1;
        return Success([]);
      }
      var values: TextSet := [];
      ghost var start := cursor;
      AfterNothing<Text, ReceiptError>(ReadItems(bytes, start, None, MAX_FEATURES));
      while true
        invariant |values| <= MAX_FEATURES
        invariant ReadItems(bytes, start, None, MAX_FEATURES)
                  == After<Text, ReceiptError>(values, ReadItems(bytes, cursor, Last(values), MAX_FEATURES - |values|))
        decreases MAX_FEATURES - |values|
      {
        if |values| >= MAX_FEATURES {
          return Failure(TooManyStrings);
        }
        var value :- String();
        if !Follows(Last(values), value) {
          return Failure(ArrayNotAscending);
        }
        SnocAscends(values, value);
        var b :- Byte();
        if b == COMMA {
          AfterMore<Text, ReceiptError>(values, value, ReadItems(bytes, cursor, Some(value), MAX_FEATURES - |values| - 1));
          values := values + [value];
        } else if b == CLOSE_BRACKET {
          return Success(values + [value]);
        } else {
          return Failure(ExpectedCommaOrEnd);
        }
      }
    }

    method Field(key: string) returns (r: Result<Text, ReceiptError>)
      modifies this
      ensures Reads(ReadField(bytes, old(cursor), key), r, cursor)
    {
      hide ReadString;
      var _ :- Expect(AsciiBytes(key));
      r := String();
    }

    method OptionalField(key: string) returns (r: Result<Option<Text>, ReceiptError>)
      modifies this
      ensures Reads(ReadOptionalField(bytes, old(cursor), key), r, cursor)
    {
      hide ReadOptional;
      var _ :- Expect(AsciiBytes(key));
      r := OptionalString();
    }

    method SetField(key: string) returns (r: Result<TextSet, ReceiptError>)
      modifies this
      ensures Reads(ReadSetField(bytes, old(cursor), key), r, cursor)
    {
      hide ReadSet;
      var _ :- Expect(AsciiBytes(key));
      r := Strings();
    }

    method BoolField(key: string) returns (r: Result<bool, ReceiptError>)
      modifies this
      ensures Reads(ReadBoolField(bytes, old(cursor), key), r, cursor)
    {
      hide ReadBool;
      var _ :- Expect(AsciiBytes(key));
      r := Boolean();
    }

    method Identity() returns (r: Result<PackageIdentity, ReceiptError>)
      modifies this
      ensures Reads(ReadIdentity(bytes, old(cursor)), r, cursor)
    {
      hide ReadField, ReadOptionalField, EmitIdentity, EmitField, EmitOptionalField, IsAscii;
      var name :- Field("\"name\":");
      var version :- Field(",\"version\":");
      var packageId :- Field(",\"package_id\":");
      var sourceId :- OptionalField(",\"source_id\":");
      var pathDigest :- OptionalField(",\"path_digest\":");
      return Success(PackageIdentity(name, version, packageId, sourceId, pathDigest));
    }

    method Unit() returns (r: Result<PackageRow, ReceiptError>)
      modifies this
      ensures Reads(ReadUnit(bytes, old(cursor)), r, cursor)
    {
      hide ReadIdentity, ReadSetField, EmitUnit, EmitIdentity, EmitSetField;
      var identity :- Identity();
      var features :- SetField(",\"features\":");
      return Success(PackageRow(identity, features));
    }

    method SelectionPart() returns (r: Result<Selection, ReceiptError>)
      modifies this
      ensures Reads(ReadSelection(bytes, old(cursor)), r, cursor)
    {
      hide ReadOptionalField, ReadSetField, ReadBoolField, EmitSelection, EmitOptionalField, EmitSetField, EmitBoolField;
      var target :- OptionalField("},\"selection\":{\"target\":");
      var features :- SetField(",\"features\":");
      var allFeatures :- BoolField(",\"all_features\":");
      var defaultFeatures :- BoolField(",\"default_features\":");
      return Success(Selection(target, features, allFeatures, defaultFeatures));
    }

    method Row() returns (r: Result<PackageRow, ReceiptError>)
      modifies this
      ensures Reads(ReadRow(bytes, old(cursor)), r, cursor)
    {
      hide ReadUnit, EmitRow, EmitUnit, IsAscii;
      var _ :- Expect([OPEN_BRACE]);
      var row :- Unit();
      var _ :- Expect([CLOSE_BRACE]);
      return Success(row);
    }

    method Packages() returns (r: Result<seq<PackageRow>, ReceiptError>)
      modifies this
      ensures Reads(ReadPackages(bytes, old(cursor)), r, cursor)
    {
      hide At, ReadRow, EmitRows, EmitPackages, EmitRow, IsAscii;
      var _ :- Expect(AsciiBytes("},\"packages\":["));
      if cursor < |bytes| && bytes[cursor] == CLOSE_BRACKET {
        cursor := cursor + 1;
        return Success([]);
      }
      var rows: seq<PackageRow> := [];
      ghost var start := cursor;
      AfterNothing(ReadRows(bytes, start, MAX_PACKAGES));
      while true
        invariant |rows| <= MAX_PACKAGES
        invariant ReadRows(bytes, start, MAX_PACKAGES) == After(rows, ReadRows(bytes, cursor, MAX_PACKAGES - |rows|))
        decreases MAX_PACKAGES - |rows|
      {
        if |rows| >= MAX_PACKAGES {
          return Failure(TooManyRows);
        }
        var row :- Row();
        var b :- Byte();
        if b == COMMA {
          AfterMore(rows, row, ReadRows(bytes, cursor, MAX_PACKAGES - |rows| - 1));
          rows := rows + [row];
        } else if b == CLOSE_BRACKET {
          return Success(rows + [row]);
        } else {
          return Failure(ExpectedCommaOrEnd);
        }
      }
    }

    method WholeReceipt() returns (r: Result<Receipt, ReceiptError>)
      modifies this
      ensures Reads(ReadReceipt(bytes, old(cursor)), r, cursor)
    {
      hide ReadField, ReadUnit, ReadSelection, ReadPackages, EmitReceipt, EmitHeader, EmitCargo, EmitRoot, EmitUnit,
        EmitSelection, EmitPackages, EmitField, IsAscii;
      var schema :- Field("{\"schema\":");
      if schema != AsciiBytes(SCHEMA) {
        return Failure(UnexpectedSchema);
      }
      var scope :- Field(",\"scope\":");
      if scope != AsciiBytes(SCOPE) {
        return Failure(UnexpectedScope);
      }
      var digest :- Field(",\"cargo\":{\"executable_digest\":");
      var version :- Field(",\"version\":");
      var _ :- Expect(AsciiBytes("},\"root\":{"));
      var root :- Unit();
      var selection :- SelectionPart();
      var packages :- Packages();
      var _ :- Expect([CLOSE_BRACE]);
      return Success(Receipt(CargoIdentity(digest, version), root, selection, packages));
    }
  }

  method ParseText(input: seq<uint8>) returns (r: Result<Receipt, ReceiptError>)
    ensures r == Parse(input)
  {
    hide ReadReceipt, Emit, EmitReceipt, Validate, IsAscii, GoodReceipt, ReceiptFault;
    if input == [] || |input| > MAX_RECEIPT_BYTES || !IsAscii(input) {
      return Failure(InputNotBoundedAscii);
    }
    var parser := new Parser(input);
    var receipt :- parser.WholeReceipt();
    if parser.cursor != |input| {
      return Failure(TrailingBytes);
    }
    var _ :- CheckReceipt(receipt);
    var code :- EmitText(receipt);
    if code != input {
      return Failure(NotCanonicalForm);
    }
    return Success(receipt);
  }

  lemma EmptySize()
    ensures TextSize([]) == 0
  {
  }

  lemma AfterStep(text: Text, c: Scalar, rest: Parsed<Text>)
    ensures After(text, After([c], rest)) == After(text + [c], rest)
    ensures TextSize(text + [c]) == TextSize(text) + Utf8Size(c)
  {
    TextSizeConcat(text, [c]);
    AfterMore(text, c, rest);
  }

  function Last(values: seq<Text>): Option<Text> {
    if values == [] then None else Some(values[|values| - 1])
  }

  lemma NoTexts()
    ensures Ascending<Text>(CompareText, [])
  {
  }

  lemma SnocAscends(values: seq<Text>, value: Text)
    requires Ascending<Text>(CompareText, values) && Follows(Last(values), value)
    ensures Ascending<Text>(CompareText, values + [value])
  {
    AscendingSnoc<Text>(CompareText, values, value);
  }
}

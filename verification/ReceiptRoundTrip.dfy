/** The canonical byte form of a receipt, its strict parser, and the proof that they are inverse. */
module ReceiptRoundTrip {
  import opened Wrappers
  import opened Bytes
  import opened Orderings
  import opened ReceiptTokens
  import opened ReceiptFormat

  // ----- Labelled fields -----

  function EmitField(key: string, text: Text): (code: seq<uint8>)
    ensures IsAscii(code)
  {
    AsciiBytes(key) + EmitString(text)
  }

  function ReadField(bytes: seq<uint8>, pos: nat, key: string): (r: Parsed<Text>)
    ensures r.Success? ==> r.value.1 == pos + |EmitField(key, r.value.0)|
  {
    var p1 :- ReadToken(bytes, pos, AsciiBytes(key));
    ReadString(bytes, p1)
  }

  lemma FieldAt(bytes: seq<uint8>, pos: nat, key: string, text: Text)
    ensures At(bytes, pos, EmitField(key, text)) && FitsText(text)
            <==> ReadField(bytes, pos, key) == Success((text, pos + |EmitField(key, text)|))
  {
    hide At, EmitString, ReadString, FitsText;
    AtConcat(bytes, pos, AsciiBytes(key), EmitString(text));
    StringAt(bytes, pos + |key|, text);
  }

  function EmitOptionalField(key: string, text: Option<Text>): (code: seq<uint8>)
    ensures IsAscii(code)
  {
    AsciiBytes(key) + EmitOptional(text)
  }

  function ReadOptionalField(bytes: seq<uint8>, pos: nat, key: string): (r: Parsed<Option<Text>>)
    ensures r.Success? ==> r.value.1 == pos + |EmitOptionalField(key, r.value.0)|
  {
    var p1 :- ReadToken(bytes, pos, AsciiBytes(key));
    ReadOptional(bytes, p1)
  }

  lemma OptionalFieldAt(bytes: seq<uint8>, pos: nat, key: string, text: Option<Text>)
    ensures At(bytes, pos, EmitOptionalField(key, text)) && FitsOptional(text)
            <==> ReadOptionalField(bytes, pos, key) == Success((text, pos + |EmitOptionalField(key, text)|))
  {
    hide At, EmitOptional, ReadOptional, FitsOptional;
    AtConcat(bytes, pos, AsciiBytes(key), EmitOptional(text));
    OptionalAt(bytes, pos + |key|, text);
  }

  function EmitSetField(key: string, values: TextSet): (code: seq<uint8>)
    ensures IsAscii(code)
  {
    AsciiBytes(key) + EmitSet(values)
  }

  function ReadSetField(bytes: seq<uint8>, pos: nat, key: string): (r: Parsed<TextSet>)
    ensures r.Success? ==> r.value.1 == pos + |EmitSetField(key, r.value.0)|
  {
    var p1 :- ReadToken(bytes, pos, AsciiBytes(key));
    ReadSet(bytes, p1)
  }

  lemma SetFieldAt(bytes: seq<uint8>, pos: nat, key: string, values: TextSet)
    ensures At(bytes, pos, EmitSetField(key, values)) && FitsSet(values)
            <==> ReadSetField(bytes, pos, key) == Success((values, pos + |EmitSetField(key, values)|))
  {
    hide At, EmitSet, ReadSet, FitsSet;
    AtConcat(bytes, pos, AsciiBytes(key), EmitSet(values));
    SetAt(bytes, pos + |key|, values);
  }

  function EmitBoolField(key: string, b: bool): (code: seq<uint8>)
    ensures IsAscii(code)
  {
    AsciiBytes(key) + EmitBool(b)
  }

  function ReadBoolField(bytes: seq<uint8>, pos: nat, key: string): (r: Parsed<bool>)
    ensures r.Success? ==> r.value.1 == pos + |EmitBoolField(key, r.value.0)|
  {
    var p1 :- ReadToken(bytes, pos, AsciiBytes(key));
    ReadBool(bytes, p1)
  }

  lemma BoolFieldAt(bytes: seq<uint8>, pos: nat, key: string, b: bool)
    ensures At(bytes, pos, EmitBoolField(key, b))
            <==> ReadBoolField(bytes, pos, key) == Success((b, pos + |EmitBoolField(key, b)|))
  {
    hide At, EmitBool, ReadBool;
    AtConcat(bytes, pos, AsciiBytes(key), EmitBool(b));
    BoolAt(bytes, pos + |key|, b);
  }

  // ----- Package identities and rows -----

  function EmitCoordinates(id: PackageIdentity): (code: seq<uint8>)
    ensures IsAscii(code)
  {
    EmitField("\"name\":", id.name) + (EmitField(",\"version\":", id.version) +
    EmitField(",\"package_id\":", id.packageId))
  }

  function EmitOrigin(id: PackageIdentity): (code: seq<uint8>)
    ensures IsAscii(code)
  {
    EmitOptionalField(",\"source_id\":", id.sourceId) + EmitOptionalField(",\"path_digest\":", id.pathDigest)
  }

  function EmitIdentity(id: PackageIdentity): (code: seq<uint8>)
    ensures IsAscii(code)
  {
    EmitCoordinates(id) + EmitOrigin(id)
  }

  predicate FitsIdentity(id: PackageIdentity) {
    && FitsText(id.name) && FitsText(id.version) && FitsText(id.packageId)
    && FitsOptional(id.sourceId) && FitsOptional(id.pathDigest)
  }

  function ReadIdentity(bytes: seq<uint8>, pos: nat): (r: Parsed<PackageIdentity>)
    ensures r.Success? ==> r.value.1 == pos + |EmitIdentity(r.value.0)|
  {
    hide EmitField, EmitOptionalField, IsAscii;
    var (name, p1) :- ReadField(bytes, pos, "\"name\":");
    var (version, p2) :- ReadField(bytes, p1, ",\"version\":");
    var (packageId, p3) :- ReadField(bytes, p2, ",\"package_id\":");
    var (sourceId, p4) :- ReadOptionalField(bytes, p3, ",\"source_id\":");
    var (pathDigest, p5) :- ReadOptionalField(bytes, p4, ",\"path_digest\":");
    Success((PackageIdentity(name, version, packageId, sourceId, pathDigest), p5))
  }

  lemma IdentityAt(bytes: seq<uint8>, pos: nat, id: PackageIdentity)
    ensures At(bytes, pos, EmitIdentity(id)) && FitsIdentity(id)
            <==> ReadIdentity(bytes, pos) == Success((id, pos + |EmitIdentity(id)|))
  {
    hide At, EmitField, ReadField, EmitOptionalField, ReadOptionalField, FitsText, FitsOptional, IsAscii;
    var name, version, packageId :=
      EmitField("\"name\":", id.name), EmitField(",\"version\":", id.version),
      EmitField(",\"package_id\":", id.packageId);
    var sourceId, pathDigest :=
      EmitOptionalField(",\"source_id\":", id.sourceId), EmitOptionalField(",\"path_digest\":", id.pathDigest);
    var p1 := pos + |name|;
    var p2 := p1 + |version|;
    var p3 := p2 + |packageId|;
    var p4 := p3 + |sourceId|;
    AtConcat(bytes, pos, EmitCoordinates(id), EmitOrigin(id));
    AtConcat(bytes, pos, name, version + packageId);
    AtConcat(bytes, p1, version, packageId);
    AtConcat(bytes, p3, sourceId, pathDigest);
    FieldAt(bytes, pos, "\"name\":", id.name);
    FieldAt(bytes, p1, ",\"version\":", id.version);
    FieldAt(bytes, p2, ",\"package_id\":", id.packageId);
    OptionalFieldAt(bytes, p3, ",\"source_id\":", id.sourceId);
    OptionalFieldAt(bytes, p4, ",\"path_digest\":", id.pathDigest);
  }

  function EmitUnit(row: PackageRow): (code: seq<uint8>)
    ensures IsAscii(code)
  {
    EmitIdentity(row.identity) + EmitSetField(",\"features\":", row.features)
  }

  predicate FitsUnit(row: PackageRow) {
    FitsIdentity(row.identity) && FitsSet(row.features)
  }

  function ReadUnit(bytes: seq<uint8>, pos: nat): (r: Parsed<PackageRow>)
    ensures r.Success? ==> r.value.1 == pos + |EmitUnit(r.value.0)|
  {
    hide EmitIdentity, EmitSetField;
    var (identity, p1) :- ReadIdentity(bytes, pos);
    var (features, p2) :- ReadSetField(bytes, p1, ",\"features\":");
    Success((PackageRow(identity, features), p2))
  }

  lemma UnitAt(bytes: seq<uint8>, pos: nat, row: PackageRow)
    ensures At(bytes, pos, EmitUnit(row)) && FitsUnit(row)
            <==> ReadUnit(bytes, pos) == Success((row, pos + |EmitUnit(row)|))
  {
    hide At, EmitIdentity, ReadIdentity, EmitSetField, ReadSetField, FitsIdentity, FitsSet;
    var p1 := pos + |EmitIdentity(row.identity)|;
    AtConcat(bytes, pos, EmitIdentity(row.identity), EmitSetField(",\"features\":", row.features));
    IdentityAt(bytes, pos, row.identity);
    SetFieldAt(bytes, p1, ",\"features\":", row.features);
  }

  // ----- The package array -----

  const OPEN_BRACE: uint8 := 123
  const CLOSE_BRACE: uint8 := 125

  function EmitRow(row: PackageRow): (code: seq<uint8>)
    ensures IsAscii(code) && code != [] && code[0] == OPEN_BRACE
  {
    hide EmitUnit;
    [OPEN_BRACE] + (EmitUnit(row) + [CLOSE_BRACE])
  }

  function ReadRow(bytes: seq<uint8>, pos: nat): (r: Parsed<PackageRow>)
    ensures r.Success? ==> r.value.1 == pos + |EmitRow(r.value.0)|
  {
    hide EmitUnit, ReadUnit, IsAscii;
    var p1 :- ReadToken(bytes, pos, [OPEN_BRACE]);
    var (row, p2) :- ReadUnit(bytes, p1);
    var p3 :- ReadToken(bytes, p2, [CLOSE_BRACE]);
    Success((row, p3))
  }

  lemma RowAt(bytes: seq<uint8>, pos: nat, row: PackageRow)
    ensures At(bytes, pos, EmitRow(row)) && FitsUnit(row)
            <==> ReadRow(bytes, pos) == Success((row, pos + |EmitRow(row)|))
  {
    hide At, EmitUnit, ReadUnit, FitsUnit;
    AtConcat(bytes, pos, [OPEN_BRACE], EmitUnit(row) + [CLOSE_BRACE]);
    AtConcat(bytes, pos + 1, EmitUnit(row), [CLOSE_BRACE]);
    UnitAt(bytes, pos + 1, row);
  }

  /** The rows of a non-empty array and its closing bracket. */
  function EmitRows(rows: seq<PackageRow>): (code: seq<uint8>)
    requires rows != []
    ensures IsAscii(code) && code != [] && code[0] == OPEN_BRACE
  {
    hide EmitRow;
    EmitRow(rows[0]) + if |rows| == 1 then [CLOSE_BRACKET] else [COMMA] + EmitRows(rows[1..])
  }

  lemma EmitRowsSize(row: PackageRow, rest: seq<PackageRow>)
    ensures |EmitRows([row] + rest)| == |EmitRow(row)| + 1 + if |rest| == 0 then 0 else |EmitRows(rest)|
  {
    hide EmitRow, IsAscii;
    assert ([row] + rest)[1..] == rest;
  }

  /** Reads at most `room` more rows. */
  function ReadRows(bytes: seq<uint8>, pos: nat, room: nat): (r: Parsed<seq<PackageRow>>)
    ensures r.Success? ==> r.value.0 != [] && r.value.1 == pos + |EmitRows(r.value.0)|
    decreases room
  {
    hide ReadRow, EmitRow, EmitRows, IsAscii;
    if room == 0 then Failure(TooManyRows)
    else
      var (row, p1) :- ReadRow(bytes, pos);
      var (b, p2) :- ReadByte(bytes, p1);
      if b == COMMA then
        var (rest, p3) :- ReadRows(bytes, p2, room - 1);
        EmitRowsSize(row, rest);
        Success(([row] + rest, p3))
      else if b == CLOSE_BRACKET then
        EmitRowsSize(row, []);
        assert [row] + [] == [row];
        Success(([row], p2))
      else Failure(ExpectedCommaOrEnd)
  }

  predicate AllFitRows(rows: seq<PackageRow>) {
    forall row :: row in rows ==> FitsUnit(row)
  }

  lemma AllFitRowsSplit(rows: seq<PackageRow>)
    requires rows != []
    ensures AllFitRows(rows) <==> FitsUnit(rows[0]) && AllFitRows(rows[1..])
    ensures AllFitRows([])
  {
    hide FitsUnit;
    assert rows == [rows[0]] + rows[1..];
  }

  /** A non-empty array: its first row, then a bracket, or a comma and the other rows. */
  lemma RowsLayout(bytes: seq<uint8>, pos: nat, rows: seq<PackageRow>)
    requires rows != []
    ensures var p1, rest := pos + |EmitRow(rows[0])|, rows[1..];
            if |rows| == 1 then
              && |EmitRows(rows)| == |EmitRow(rows[0])| + 1
              && (At(bytes, pos, EmitRows(rows))
                  <==> At(bytes, pos, EmitRow(rows[0])) && p1 < |bytes| && bytes[p1] == CLOSE_BRACKET)
            else
              && |EmitRows(rows)| == |EmitRow(rows[0])| + 1 + |EmitRows(rest)|
              && (At(bytes, pos, EmitRows(rows))
                  <==> && At(bytes, pos, EmitRow(rows[0]))
                       && p1 < |bytes| && bytes[p1] == COMMA
                       && At(bytes, p1 + 1, EmitRows(rest)))
  {
    hide At, EmitRow, IsAscii;
    var code, p1, rest := EmitRow(rows[0]), pos + |EmitRow(rows[0])|, rows[1..];
    if |rows| == 1 {
      assert EmitRows(rows) == code + [CLOSE_BRACKET];
      hide EmitRows;
      AtConcat(bytes, pos, code, [CLOSE_BRACKET]);
      ByteAt(bytes, p1, CLOSE_BRACKET);
    } else {
      assert EmitRows(rows) == code + ([COMMA] + EmitRows(rest));
      hide EmitRows;
      AtConcat(bytes, pos, code, [COMMA] + EmitRows(rest));
      AtConcat(bytes, p1, [COMMA], EmitRows(rest));
      ByteAt(bytes, p1, COMMA);
    }
  }

  lemma {:induction false} RowsAt(bytes: seq<uint8>, pos: nat, room: nat, rows: seq<PackageRow>)
    requires rows != []
    ensures At(bytes, pos, EmitRows(rows)) && |rows| <= room && AllFitRows(rows)
            <==> ReadRows(bytes, pos, room) == Success((rows, pos + |EmitRows(rows)|))
    decreases |rows|
  {
    hide At, EmitRows, ReadRow, EmitRow, FitsUnit, AllFitRows, IsAscii;
    var first, rest := rows[0], rows[1..];
    assert rows == [first] + rest;
    AllFitRowsSplit(rows);
    RowAt(bytes, pos, first);
    RowsLayout(bytes, pos, rows);
    var r, p1 := ReadRows(bytes, pos, room), pos + |EmitRow(first)|;
    assert r.Success? ==> r.value.0[0] == ReadRow(bytes, pos).value.0;
    assert rest == [] ==> rows == [first];
    if rest != [] && room > 0 {
      RowsAt(bytes, p1 + 1, room - 1, rest);
      if ReadRow(bytes, pos) == Success((first, p1)) && p1 < |bytes| && bytes[p1] == COMMA && r.Success? {
        assert r.value.0[1..] == ReadRows(bytes, p1 + 1, room - 1).value.0;
      }
    }
  }

  function EmitPackages(rows: seq<PackageRow>): (code: seq<uint8>)
    ensures IsAscii(code)
  {
    AsciiBytes("},\"packages\":[") + if rows == [] then [CLOSE_BRACKET] else EmitRows(rows)
  }

  function ReadPackages(bytes: seq<uint8>, pos: nat): (r: Parsed<seq<PackageRow>>)
    ensures r.Success? ==> r.value.1 == pos + |EmitPackages(r.value.0)|
  {
    var p1 :- ReadToken(bytes, pos, AsciiBytes("},\"packages\":["));
    if p1 < |bytes| && bytes[p1] == CLOSE_BRACKET then Success(([], p1 + 1))
    else ReadRows(bytes, p1, MAX_PACKAGES)
  }

  lemma PackagesAt(bytes: seq<uint8>, pos: nat, rows: seq<PackageRow>)
    ensures At(bytes, pos, EmitPackages(rows)) && |rows| <= MAX_PACKAGES && AllFitRows(rows)
            <==> ReadPackages(bytes, pos) == Success((rows, pos + |EmitPackages(rows)|))
  {
    hide At, EmitRows, ReadRows, FitsUnit;
    var token := AsciiBytes("},\"packages\":[");
    var p1 := pos + |token|;
    if rows == [] {
      AtConcat(bytes, pos, token, [CLOSE_BRACKET]);
      ByteAt(bytes, p1, CLOSE_BRACKET);
    } else {
      AtConcat(bytes, pos, token, EmitRows(rows));
      RowsAt(bytes, p1, MAX_PACKAGES, rows);
      FirstByteAt(bytes, p1, EmitRows(rows));
    }
  }

  // ----- Header, toolchain, selection -----

  function EmitHeader(): (code: seq<uint8>)
    ensures IsAscii(code)
  {
    EmitField("{\"schema\":", AsciiBytes(SCHEMA)) + EmitField(",\"scope\":", AsciiBytes(SCOPE))
  }

  /** The offset after the schema and scope of this format. */
  function ReadHeader(bytes: seq<uint8>, pos: nat): (r: Result<nat, ReceiptError>)
    ensures r.Success? ==> r.value == pos + |EmitHeader()|
  {
    hide EmitField, ReadField;
    var (schema, p1) :- ReadField(bytes, pos, "{\"schema\":");
    if schema != AsciiBytes(SCHEMA) then Failure(UnexpectedSchema)
    else
      var (scope, p2) :- ReadField(bytes, p1, ",\"scope\":");
      if scope != AsciiBytes(SCOPE) then Failure(UnexpectedScope) else Success(p2)
  }

  lemma HeaderAt(bytes: seq<uint8>, pos: nat)
    ensures At(bytes, pos, EmitHeader()) <==> ReadHeader(bytes, pos).Success?
  {
    hide At, EmitField, ReadField, TextSize;
    var schema, scope: Text := AsciiBytes(SCHEMA), AsciiBytes(SCOPE);
    assert FitsText(schema) && FitsText(scope);
    var p1 := pos + |EmitField("{\"schema\":", schema)|;
    AtConcat(bytes, pos, EmitField("{\"schema\":", schema), EmitField(",\"scope\":", scope));
    FieldAt(bytes, pos, "{\"schema\":", schema);
    FieldAt(bytes, p1, ",\"scope\":", scope);
  }

  function EmitCargo(cargo: CargoIdentity): (code: seq<uint8>)
    ensures IsAscii(code)
  {
    EmitField(",\"cargo\":{\"executable_digest\":", cargo.executableDigest) + EmitField(",\"version\":", cargo.version)
  }

  predicate FitsCargo(cargo: CargoIdentity) {
    FitsText(cargo.executableDigest) && FitsText(cargo.version)
  }

  function ReadCargo(bytes: seq<uint8>, pos: nat): (r: Parsed<CargoIdentity>)
    ensures r.Success? ==> r.value.1 == pos + |EmitCargo(r.value.0)|
  {
    hide EmitField, ReadField;
    var (digest, p1) :- ReadField(bytes, pos, ",\"cargo\":{\"executable_digest\":");
    var (version, p2) :- ReadField(bytes, p1, ",\"version\":");
    Success((CargoIdentity(digest, version), p2))
  }

  lemma CargoAt(bytes: seq<uint8>, pos: nat, cargo: CargoIdentity)
    ensures At(bytes, pos, EmitCargo(cargo)) && FitsCargo(cargo)
            <==> ReadCargo(bytes, pos) == Success((cargo, pos + |EmitCargo(cargo)|))
  {
    hide At, EmitField, ReadField, FitsText;
    var digest, version :=
      EmitField(",\"cargo\":{\"executable_digest\":", cargo.executableDigest), EmitField(",\"version\":", cargo.version);
    AtConcat(bytes, pos, digest, version);
    FieldAt(bytes, pos, ",\"cargo\":{\"executable_digest\":", cargo.executableDigest);
    FieldAt(bytes, pos + |digest|, ",\"version\":", cargo.version);
  }

  function EmitRoot(row: PackageRow): (code: seq<uint8>)
    ensures IsAscii(code)
  {
    AsciiBytes("},\"root\":{") + EmitUnit(row)
  }

  function ReadRoot(bytes: seq<uint8>, pos: nat): (r: Parsed<PackageRow>)
    ensures r.Success? ==> r.value.1 == pos + |EmitRoot(r.value.0)|
  {
    hide EmitUnit, ReadUnit;
    var p1 :- ReadToken(bytes, pos, AsciiBytes("},\"root\":{"));
    ReadUnit(bytes, p1)
  }

  lemma RootAt(bytes: seq<uint8>, pos: nat, row: PackageRow)
    ensures At(bytes, pos, EmitRoot(row)) && FitsUnit(row)
            <==> ReadRoot(bytes, pos) == Success((row, pos + |EmitRoot(row)|))
  {
    hide At, EmitUnit, ReadUnit, FitsUnit;
    var token := AsciiBytes("},\"root\":{");
    AtConcat(bytes, pos, token, EmitUnit(row));
    UnitAt(bytes, pos + |token|, row);
  }

  function EmitSelection(selection: Selection): (code: seq<uint8>)
    ensures IsAscii(code)
  {
    hide EmitOptionalField, EmitSetField, EmitBoolField;
    EmitOptionalField("},\"selection\":{\"target\":", selection.target) +
    (EmitSetField(",\"features\":", selection.features) +
    (EmitBoolField(",\"all_features\":", selection.allFeatures) +
    EmitBoolField(",\"default_features\":", selection.defaultFeatures)))
  }

  predicate FitsSelection(selection: Selection) {
    FitsOptional(selection.target) && FitsSet(selection.features)
  }

  function ReadSelection(bytes: seq<uint8>, pos: nat): (r: Parsed<Selection>)
    ensures r.Success? ==> r.value.1 == pos + |EmitSelection(r.value.0)|
  {
    hide EmitOptionalField, ReadOptionalField, EmitSetField, ReadSetField, EmitBoolField, ReadBoolField, IsAscii;
    var (target, p1) :- ReadOptionalField(bytes, pos, "},\"selection\":{\"target\":");
    var (features, p2) :- ReadSetField(bytes, p1, ",\"features\":");
    var (allFeatures, p3) :- ReadBoolField(bytes, p2, ",\"all_features\":");
    var (defaultFeatures, p4) :- ReadBoolField(bytes, p3, ",\"default_features\":");
    Success((Selection(target, features, allFeatures, defaultFeatures), p4))
  }

  lemma SelectionAt(bytes: seq<uint8>, pos: nat, selection: Selection)
    ensures At(bytes, pos, EmitSelection(selection)) && FitsSelection(selection)
            <==> ReadSelection(bytes, pos) == Success((selection, pos + |EmitSelection(selection)|))
  {
    hide At, EmitOptionalField, ReadOptionalField, EmitSetField, ReadSetField, EmitBoolField, ReadBoolField,
      FitsOptional, FitsSet, IsAscii;
    var target, features :=
      EmitOptionalField("},\"selection\":{\"target\":", selection.target),
      EmitSetField(",\"features\":", selection.features);
    var all, default :=
      EmitBoolField(",\"all_features\":", selection.allFeatures),
      EmitBoolField(",\"default_features\":", selection.defaultFeatures);
    var p1 := pos + |target|;
    var p2 := p1 + |features|;
    var p3 := p2 + |all|;
    AtConcat(bytes, pos, target, features + (all + default));
    AtConcat(bytes, p1, features, all + default);
    AtConcat(bytes, p2, all, default);
    OptionalFieldAt(bytes, pos, "},\"selection\":{\"target\":", selection.target);
    SetFieldAt(bytes, p1, ",\"features\":", selection.features);
    BoolFieldAt(bytes, p2, ",\"all_features\":", selection.allFeatures);
    BoolFieldAt(bytes, p3, ",\"default_features\":", selection.defaultFeatures);
  }

  // ----- Receipts -----

  function EmitReceipt(r: Receipt): (code: seq<uint8>)
    ensures IsAscii(code) && code != []
  {
    hide EmitHeader, EmitCargo, EmitRoot, EmitSelection, EmitPackages;
    EmitHeader() + (EmitCargo(r.cargo) + (EmitRoot(r.root) + (EmitSelection(r.selection) +
    (EmitPackages(r.packages) + [CLOSE_BRACE]))))
  }

  /** Every bound that the parser places on the parts of a receipt. */
  predicate FitsReceipt(r: Receipt) {
    && FitsCargo(r.cargo) && FitsUnit(r.root) && FitsSelection(r.selection)
    && |r.packages| <= MAX_PACKAGES && AllFitRows(r.packages)
  }

  function ReadReceipt(bytes: seq<uint8>, pos: nat): (result: Parsed<Receipt>)
    ensures result.Success? ==> result.value.1 == pos + |EmitReceipt(result.value.0)|
  {
    hide ReadHeader, EmitHeader, ReadCargo, EmitCargo, ReadRoot, EmitRoot, ReadSelection, EmitSelection,
      ReadPackages, EmitPackages, IsAscii;
    var p1 :- ReadHeader(bytes, pos);
    var (cargo, p2) :- ReadCargo(bytes, p1);
    var (root, p3) :- ReadRoot(bytes, p2);
    var (selection, p4) :- ReadSelection(bytes, p3);
    var (packages, p5) :- ReadPackages(bytes, p4);
    var p6 :- ReadToken(bytes, p5, [CLOSE_BRACE]);
    Success((Receipt(cargo, root, selection, packages), p6))
  }

  /** A receipt is read exactly when its canonical form stands there and its parts fit. */
  lemma ReceiptAt(bytes: seq<uint8>, pos: nat, r: Receipt)
    ensures At(bytes, pos, EmitReceipt(r)) && FitsReceipt(r)
            <==> ReadReceipt(bytes, pos) == Success((r, pos + |EmitReceipt(r)|))
  {
    hide At, ReadHeader, EmitHeader, ReadCargo, EmitCargo, ReadRoot, EmitRoot, ReadSelection, EmitSelection,
      ReadPackages, EmitPackages, FitsCargo, FitsUnit, FitsSelection, AllFitRows, IsAscii;
    var header, cargo, root, selection, packages :=
      EmitHeader(), EmitCargo(r.cargo), EmitRoot(r.root), EmitSelection(r.selection), EmitPackages(r.packages);
    var p1 := pos + |header|;
    var p2 := p1 + |cargo|;
    var p3 := p2 + |root|;
    var p4 := p3 + |selection|;
    var p5 := p4 + |packages|;
    AtConcat(bytes, pos, header, cargo + (root + (selection + (packages + [CLOSE_BRACE]))));
    AtConcat(bytes, p1, cargo, root + (selection + (packages + [CLOSE_BRACE])));
    AtConcat(bytes, p2, root, selection + (packages + [CLOSE_BRACE]));
    AtConcat(bytes, p3, selection, packages + [CLOSE_BRACE]);
    AtConcat(bytes, p4, packages, [CLOSE_BRACE]);
    HeaderAt(bytes, pos);
    CargoAt(bytes, p1, r.cargo);
    RootAt(bytes, p2, r.root);
    SelectionAt(bytes, p3, r.selection);
    PackagesAt(bytes, p4, r.packages);
  }

  // ----- Emission and parsing -----

  function Emit(receipt: Receipt): Result<seq<uint8>, ReceiptError> {
    var _ :- Validate(receipt);
    var code := EmitReceipt(receipt);
    if |code| > MAX_RECEIPT_BYTES then Failure(ReceiptTooLong) else Success(code)
  }

  /** The descent parser: everything before validation. */
  function ParseFields(input: seq<uint8>): Result<Receipt, ReceiptError> {
    if input == [] || |input| > MAX_RECEIPT_BYTES || !IsAscii(input) then Failure(InputNotBoundedAscii)
    else
      var (receipt, end) :- ReadReceipt(input, 0);
      if end != |input| then Failure(TrailingBytes) else Success(receipt)
  }

  function Parse(input: seq<uint8>): Result<Receipt, ReceiptError> {
    hide EmitReceipt, ReadReceipt, Validate, IsAscii;
    var receipt :- ParseFields(input);
    var _ :- Validate(receipt);
    var code :- Emit(receipt);
    if code != input then Failure(NotCanonicalForm) else Success(receipt)
  }

  /** The descent parser accepts exactly the canonical forms of receipts within its bounds. */
  lemma FieldsAreExact(input: seq<uint8>, r: Receipt)
    ensures ParseFields(input) == Success(r)
            <==> input == EmitReceipt(r) && |input| <= MAX_RECEIPT_BYTES && FitsReceipt(r)
  {
    hide EmitReceipt, ReadReceipt, FitsReceipt;
    ReceiptAt(input, 0, r);
    assert input[0..|input|] == input;
    var result := ReadReceipt(input, 0);
    if result.Success? && input == EmitReceipt(r) {
      ReceiptAt(input, 0, result.value.0);
    }
  }

  lemma ValidIdentityFits(id: PackageIdentity)
    requires ValidateIdentity(id).Success?
    ensures FitsIdentity(id)
  {
    hide IsMachineToken, EndsWith, IsControl, IsGraphic, NameAndVersion, TextSize;
  }

  lemma ValidFeaturesFit(features: TextSet)
    requires ValidateFeatures(features).Success?
    ensures FitsSet(features)
  {
    hide IsGraphic, TextSize;
  }

  lemma ValidUnitFits(row: PackageRow)
    requires ValidRow(row)
    ensures FitsUnit(row)
  {
    hide ValidateIdentity, ValidateFeatures, FitsIdentity, FitsSet;
    ValidIdentityFits(row.identity);
    ValidFeaturesFit(row.features);
  }

  lemma ValidSelectionFits(selection: Selection)
    requires ValidateSelection(selection).Success?
    ensures FitsSelection(selection)
  {
    hide IsMachineToken, IsSelector, ValidateFeatures, FitsSet, TextSize;
    ValidFeaturesFit(selection.features);
  }

  /** Validation is at least as strict as every bound of the parser. */
  lemma ValidReceiptFits(r: Receipt)
    requires Validate(r).Success?
    ensures FitsReceipt(r)
  {
    hide ValidateIdentity, ValidateFeatures, ValidateSelection, ValidateRows, TextSize, FitsUnit, FitsSelection, ValidRow;
    ValidUnits(r);
    ValidSelectionFits(r.selection);
    ValidUnitFits(r.root);
    forall row | row in r.packages ensures FitsUnit(row) {
      ValidUnitFits(row);
    }
  }

  /** Printer and parser are exact inverses. */
  lemma ParseInvertsEmit(input: seq<uint8>, r: Receipt)
    ensures Parse(input) == Success(r) <==> Emit(r) == Success(input)
  {
    hide EmitReceipt, FitsReceipt, ParseFields, Validate;
    FieldsAreExact(input, r);
    if Validate(r).Success? {
      ValidReceiptFits(r);
    }
  }

  /** Whatever passes the descent parser and validation is canonical: the closing comparison is redundant. */
  lemma ClosingComparisonIsRedundant(input: seq<uint8>)
    ensures Parse(input) ==
            match ParseFields(input)
            case Failure(e) => Failure(e)
            case Success(r) => if Validate(r).Success? then Success(r) else Failure(Validate(r).error)
  {
    hide EmitReceipt, FitsReceipt, ParseFields, Validate;
    var fields := ParseFields(input);
    if fields.Success? {
      FieldsAreExact(input, fields.value);
    }
  }

  /** Different receipts never share a canonical form. */
  lemma EmissionIsInjective(a: Receipt, b: Receipt)
    requires Emit(a).Success? && Emit(a) == Emit(b)
    ensures a == b
  {
    hide Emit, Parse;
    ParseInvertsEmit(Emit(a).value, a);
    ParseInvertsEmit(Emit(a).value, b);
  }
}

/**
 Dependency-graph receipts: what makes one valid, its canonical byte form, and the strict parser of
 that form. Printer and parser turn out to be exact inverses, so the parser's closing comparison
 with the re-emitted receipt never decides anything.
 */
module ReceiptFormat {
  import opened Wrappers
  import opened Bytes
  import opened Orderings
  import opened ReceiptTokens

  const SCHEMA := "fs-la-depgraph-receipt-v1"
  const SCOPE := "single-root-normal-build-fs-la-closure-v2"
  const MAX_RECEIPT_BYTES := 1_048_576
  const MAX_PACKAGES := 8_192
  const MAX_FEATURE_BYTES := 256

  datatype PackageIdentity = PackageIdentity(
    name: Text,
    version: Text,
    packageId: Text,
    sourceId: Option<Text>,
    pathDigest: Option<Text>)

  /** A root or package row: one package with its resolved features. */
  datatype PackageRow = PackageRow(identity: PackageIdentity, features: TextSet)

  datatype CargoIdentity = CargoIdentity(executableDigest: Text, version: Text)

  datatype Selection = Selection(target: Option<Text>, features: TextSet, allFeatures: bool, defaultFeatures: bool)

  datatype Receipt = Receipt(cargo: CargoIdentity, root: PackageRow, selection: Selection, packages: seq<PackageRow>)

  type Check = Result<(), ReceiptError>

  // ----- Row order -----

  function CompareOptional(a: Option<Text>, b: Option<Text>): Order {
    match (a, b)
    case (None, None) => Equal
    case (None, Some(_)) => Less
    case (Some(_), None) => Greater
    case (Some(x), Some(y)) => CompareText(x, y)
  }

  function CompareSet(a: seq<Text>, b: seq<Text>): Order {
    CompareSeq<Text>(CompareText, a, b)
  }

  function CompareIdentity(a: PackageIdentity, b: PackageIdentity): Order {
    CompareText(a.name, b.name)
    .Then(CompareText(a.version, b.version))
    .Then(CompareText(a.packageId, b.packageId))
    .Then(CompareOptional(a.sourceId, b.sourceId))
    .Then(CompareOptional(a.pathDigest, b.pathDigest))
  }

  /** Identity first, then the feature sets element by element. */
  function CompareRow(a: PackageRow, b: PackageRow): Order {
    CompareIdentity(a.identity, b.identity).Then(CompareSet(a.features, b.features))
  }

  lemma TextOrderLaws(a: Text, b: Text, c: Text)
    ensures CompareText(a, b) == Equal <==> a == b
    ensures CompareText(a, b) == Less <==> CompareText(b, a) == Greater
    ensures CompareText(a, b) == Less && CompareText(b, c) == Less ==> CompareText(a, c) == Less
  {
    assert TotalOrder(CompareInt);
    CompareSeqEqual<int>(CompareInt, a, b);
    CompareSeqReverse<int>(CompareInt, a, b);
    if CompareText(a, b) == Less && CompareText(b, c) == Less {
      CompareSeqTransitive<int>(CompareInt, a, b, c);
    }
  }

  lemma TextOrderIsTotal()
    ensures TotalOrder<Text>(CompareText)
  {
    hide CompareText;
    forall a: Text, b: Text, c: Text
      ensures CompareText(a, b) == Equal <==> a == b
      ensures CompareText(a, b) == Less <==> CompareText(b, a) == Greater
      ensures CompareText(a, b) == Less && CompareText(b, c) == Less ==> CompareText(a, c) == Less
    {
      TextOrderLaws(a, b, c);
    }
  }

  lemma SetOrderLaws(a: seq<Text>, b: seq<Text>, c: seq<Text>)
    ensures CompareSet(a, b) == Equal <==> a == b
    ensures CompareSet(a, b) == Less <==> CompareSet(b, a) == Greater
    ensures CompareSet(a, b) == Less && CompareSet(b, c) == Less ==> CompareSet(a, c) == Less
  {
    TextOrderIsTotal();
    CompareSeqEqual<Text>(CompareText, a, b);
    CompareSeqReverse<Text>(CompareText, a, b);
    if CompareSet(a, b) == Less && CompareSet(b, c) == Less {
      CompareSeqTransitive<Text>(CompareText, a, b, c);
    }
  }

  lemma OptionalOrderLaws(a: Option<Text>, b: Option<Text>, c: Option<Text>)
    ensures CompareOptional(a, b) == Equal <==> a == b
    ensures CompareOptional(a, b) == Less <==> CompareOptional(b, a) == Greater
    ensures CompareOptional(a, b) == Less && CompareOptional(b, c) == Less ==> CompareOptional(a, c) == Less
  {
    hide CompareText;
    if a.Some? && b.Some? {
      TextOrderLaws(a.value, b.value, if c.Some? then c.value else []);
    }
  }

  lemma IdentityOrderLaws(a: PackageIdentity, b: PackageIdentity, c: PackageIdentity)
    ensures CompareIdentity(a, b) == Equal <==> a == b
    ensures CompareIdentity(a, b) == Less <==> CompareIdentity(b, a) == Greater
    ensures CompareIdentity(a, b) == Less && CompareIdentity(b, c) == Less ==> CompareIdentity(a, c) == Less
  {
    hide CompareText, CompareOptional;
    TextOrderLaws(a.name, b.name, c.name);
    TextOrderLaws(b.name, a.name, c.name);
    TextOrderLaws(a.version, b.version, c.version);
    TextOrderLaws(b.version, a.version, c.version);
    TextOrderLaws(a.packageId, b.packageId, c.packageId);
    TextOrderLaws(b.packageId, a.packageId, c.packageId);
    OptionalOrderLaws(a.sourceId, b.sourceId, c.sourceId);
    OptionalOrderLaws(b.sourceId, a.sourceId, c.sourceId);
    OptionalOrderLaws(a.pathDigest, b.pathDigest, c.pathDigest);
    OptionalOrderLaws(b.pathDigest, a.pathDigest, c.pathDigest);
    if CompareIdentity(a, b) == Less && CompareIdentity(b, c) == Less {
      TextOrderLaws(b.name, c.name, a.name);
      TextOrderLaws(b.version, c.version, a.version);
      TextOrderLaws(b.packageId, c.packageId, a.packageId);
      OptionalOrderLaws(b.sourceId, c.sourceId, a.sourceId);
      OptionalOrderLaws(b.pathDigest, c.pathDigest, a.pathDigest);
    }
  }

  lemma RowOrderLaws(a: PackageRow, b: PackageRow, c: PackageRow)
    ensures CompareRow(a, b) == Equal <==> a == b
    ensures CompareRow(a, b) == Less <==> CompareRow(b, a) == Greater
    ensures CompareRow(a, b) == Less && CompareRow(b, c) == Less ==> CompareRow(a, c) == Less
  {
    hide CompareIdentity, CompareSet;
    IdentityOrderLaws(a.identity, b.identity, c.identity);
    IdentityOrderLaws(b.identity, c.identity, a.identity);
    IdentityOrderLaws(b.identity, a.identity, c.identity);
    SetOrderLaws(a.features, b.features, c.features);
    SetOrderLaws(b.features, c.features, a.features);
    SetOrderLaws(b.features, a.features, c.features);
  }

  /** Package rows are totally ordered, so a strictly sorted list of rows is a set of rows. */
  lemma RowOrderIsTotal()
    ensures TotalOrder<PackageRow>(CompareRow)
  {
    hide CompareRow;
    forall a: PackageRow, b: PackageRow, c: PackageRow
      ensures CompareRow(a, b) == Equal <==> a == b
      ensures CompareRow(a, b) == Less <==> CompareRow(b, a) == Greater
      ensures CompareRow(a, b) == Less && CompareRow(b, c) == Less ==> CompareRow(a, c) == Less
    {
      RowOrderLaws(a, b, c);
    }
  }

  // ----- Validity -----

  predicate IsControl(c: int) {
    c < 0x20 || 0x7F <= c < 0xA0
  }

  predicate IsGraphic(c: int) {
    0x21 <= c <= 0x7E
  }

  predicate IsAlphanumeric(c: int) {
    48 <= c <= 57 || 65 <= c <= 90 || 97 <= c <= 122
  }

  /** Letters, digits, `_`, `-` and `.`. */
  predicate IsMachineToken(text: Text) {
    forall c :: c in text ==> IsAlphanumeric(c) || c in {95, 45, 46}
  }

  /** Letters, digits, `_`, `-`, `+`, `.`, `/` and `?`. */
  predicate IsSelector(text: Text) {
    forall c :: c in text ==> IsAlphanumeric(c) || c in {95, 45, 43, 46, 47, 63}
  }

  predicate IsDigest(text: Text) {
    TextSize(text) == 64 && forall c :: c in text ==> 48 <= c <= 57 || 97 <= c <= 102
  }

  function ValidateString(text: Text, allowControls: bool): Check {
    if text == [] || !FitsText(text) then Failure(BadLength)
    else if !allowControls && (exists c :: c in text && IsControl(c)) then Failure(ControlCharacter)
    else Success(())
  }

  predicate IsFeature(feature: Text) {
    feature != [] && TextSize(feature) <= MAX_FEATURE_BYTES && forall c :: c in feature ==> IsGraphic(c)
  }

  function ValidateFeatures(features: TextSet): Check {
    if |features| > MAX_FEATURES then Failure(TooManyFeatures)
    else if forall f :: f in features ==> IsFeature(f) then Success(())
    else Failure(BadFeature)
  }

  predicate EndsWith(text: Text, suffix: Text) {
    |suffix| <= |text| && text[|text| - |suffix|..] == suffix
  }

  /** `#name@version`. */
  function NameAndVersion(identity: PackageIdentity): Text {
    [35] + identity.name + [64] + identity.version
  }

  /** A package comes from a source that its id starts with, or from a path whose digest its id spells out. */
  function ValidateOrigin(identity: PackageIdentity): Check {
    match identity.sourceId
    case Some(source) =>
      var _ :- ValidateString(source, false);
      if identity.pathDigest.Some? then Failure(UnexpectedPathDigest)
      else if !(source <= identity.packageId) then Failure(UnboundSource)
      else Success(())
    case None =>
      if identity.pathDigest.None? then Failure(MissingPathDigest)
      else
        var digest := identity.pathDigest.value;
        if !IsDigest(digest) then Failure(BadDigest)
        else if identity.packageId != AsciiBytes("path+blake3:") + digest + NameAndVersion(identity) then
          Failure(UnboundPathDigest)
        else Success(())
  }

  function ValidateIdentity(identity: PackageIdentity): Check {
    var _ :- ValidateString(identity.name, false);
    var _ :- ValidateString(identity.version, false);
    if !IsMachineToken(identity.name) || !(forall c :: c in identity.version ==> IsGraphic(c)) then
      Failure(BadNameOrVersion)
    else
      var _ :- ValidateString(identity.packageId, false);
      if !EndsWith(identity.packageId, NameAndVersion(identity)) then Failure(UnboundNameAndVersion)
      else ValidateOrigin(identity)
  }

  function ValidateSelection(selection: Selection): Check {
    var _ :- if selection.target.Some? then ValidateString(selection.target.value, false) else Success(());
    if selection.target.Some? && !IsMachineToken(selection.target.value) then Failure(BadTarget)
    else
      var _ :- ValidateFeatures(selection.features);
      if exists f :: f in selection.features && !IsSelector(f) then Failure(BadSelector)
      else if selection.allFeatures && selection.features != [] then Failure(ConflictingSelection)
      else Success(())
  }

  /** The first fault among rows that follow `previous`. */
  function ValidateRows(previous: Option<PackageRow>, rows: seq<PackageRow>): Check
    decreases |rows|
  {
    if rows == [] then Success(())
    else
      var _ :- ValidateIdentity(rows[0].identity);
      var _ :- ValidateFeatures(rows[0].features);
      if previous.Some? && CompareRow(previous.value, rows[0]) != Less then Failure(RowsNotAscending)
      else ValidateRows(Some(rows[0]), rows[1..])
  }

  function FsLa(): Text {
    AsciiBytes("fs-la")
  }

  function Validate(receipt: Receipt): Check {
    if !IsDigest(receipt.cargo.executableDigest) then Failure(BadDigest)
    else
      var _ :- ValidateString(receipt.cargo.version, true);
      var _ :- ValidateIdentity(receipt.root.identity);
      var _ :- ValidateFeatures(receipt.root.features);
      if receipt.root.identity.name == [] then Failure(EmptyRootName)
      else
        var _ :- ValidateSelection(receipt.selection);
        if !(1 <= |receipt.packages| <= MAX_PACKAGES) then Failure(BadRowCount)
        else
          var _ :- ValidateRows(None, receipt.packages);
          if forall row :: row in receipt.packages ==> row.identity.name != FsLa() then Failure(MissingFsLaUnit)
          else if receipt.root.identity.name == FsLa() && receipt.root !in receipt.packages then
            Failure(MissingRootUnit)
          else Success(())
  }

  predicate ValidRow(row: PackageRow) {
    ValidateIdentity(row.identity).Success? && ValidateFeatures(row.features).Success?
  }

  predicate AllValid(rows: seq<PackageRow>) {
    forall row :: row in rows ==> ValidRow(row)
  }

  lemma AllValidSplit(rows: seq<PackageRow>)
    requires rows != []
    ensures AllValid(rows) <==> ValidRow(rows[0]) && AllValid(rows[1..])
  {
    hide ValidRow;
    assert rows == [rows[0]] + rows[1..];
  }

  lemma NoRows()
    ensures AllValid([]) && Ascending<PackageRow>(CompareRow, [])
  {
  }

  /** The row scan accepts exactly the strictly sorted lists of valid rows. */
  lemma {:induction false} RowScanIsExact(previous: Option<PackageRow>, rows: seq<PackageRow>)
    ensures ValidateRows(previous, rows).Success?
            <==> && AllValid(rows)
                 && Ascending<PackageRow>(CompareRow, rows)
                 && (previous.Some? && rows != [] ==> CompareRow(previous.value, rows[0]) == Less)
    decreases |rows|
  {
    hide ValidateIdentity, ValidateFeatures, CompareRow, AllValid, Ascending;
    NoRows();
    if rows != [] {
      RowScanIsExact(Some(rows[0]), rows[1..]);
      AllValidSplit(rows);
      assert rows == [rows[0]] + rows[1..];
      AscendingCons<PackageRow>(CompareRow, rows[0], rows[1..]);
    }
  }

  /** What a valid receipt guarantees about its units. */
  lemma ValidUnits(receipt: Receipt)
    requires Validate(receipt).Success?
    ensures 1 <= |receipt.packages| <= MAX_PACKAGES && AllValid(receipt.packages) && ValidRow(receipt.root)
    ensures Ascending<PackageRow>(CompareRow, receipt.packages)
    ensures exists row :: row in receipt.packages && row.identity.name == FsLa()
    ensures receipt.root.identity.name == FsLa() ==> receipt.root in receipt.packages
  {
    hide ValidateIdentity, ValidateFeatures, ValidateSelection, ValidateRows, CompareRow, AllValid, Ascending;
    RowScanIsExact(None, receipt.packages);
  }

  /** Two valid receipts that agree up to the listing of the same units are equal. */
  lemma UnitListingIsCanonical(a: Receipt, b: Receipt)
    requires Validate(a).Success? && Validate(b).Success?
    requires a.(packages := []) == b.(packages := [])
    requires forall row :: row in a.packages <==> row in b.packages
    ensures a == b
  {
    hide Validate, CompareRow, AllValid, Ascending;
    ValidUnits(a);
    ValidUnits(b);
    RowOrderIsTotal();
    AscendingListingIsUnique<PackageRow>(CompareRow, a.packages, b.packages);
  }
}

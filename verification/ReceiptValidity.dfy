/** Which receipts are valid, said of their texts: no function of the validator occurs in the conditions. */
module ReceiptValidity {
  import opened Wrappers
  import opened Bytes
  import opened Orderings
  import opened ReceiptTokens
  import opened ReceiptFormat

  // ----- Texts -----

  predicate Between(c: int, low: char, high: char) {
    low as int <= c <= high as int
  }

  predicate LetterOrDigit(c: int) {
    Between(c, 'a', 'z') || Between(c, 'A', 'Z') || Between(c, '0', '9')
  }

  predicate OneOf(c: int, chars: string) {
    exists k :: 0 <= k < |chars| && chars[k] as int == c
  }

  predicate Bounded(text: Text) {
    text != [] && TextSize(text) <= 8192
  }

  /** Non-empty, at most 8192 bytes, and without C0 and C1 controls and DEL. */
  predicate Readable(text: Text) {
    Bounded(text) && forall c :: c in text ==> 0x20 <= c < 0x7F || 0xA0 <= c
  }

  /** A package name or target triple. */
  predicate Token(text: Text) {
    Bounded(text) && forall c :: c in text ==> LetterOrDigit(c) || OneOf(c, "_-.")
  }

  predicate Visible(text: Text) {
    forall c :: c in text ==> Between(c, '!', '~')
  }

  /** 64 lower-case hexadecimal digits. */
  predicate Digest(text: Text) {
    |text| == 64 && forall c :: c in text ==> Between(c, '0', '9') || Between(c, 'a', 'f')
  }

  predicate Feature(text: Text) {
    text != [] && |text| <= 256 && Visible(text)
  }

  predicate FeatureSet(features: TextSet) {
    |features| <= 1024 && forall f :: f in features ==> Feature(f)
  }

  predicate SelectorText(text: Text) {
    forall c :: c in text ==> LetterOrDigit(c) || OneOf(c, "_-+./?")
  }

  // ----- Identities -----

  /** `name@version`, as it closes every package id. */
  function Coordinates(identity: PackageIdentity): Text {
    AsciiBytes("#") + identity.name + AsciiBytes("@") + identity.version
  }

  /**
   A package has a token for a name and a visible version, and its id ends in both. A package from a
   source has an id that begins with the source; one from a path has an id made of its digest.
   */
  ghost predicate GoodIdentity(identity: PackageIdentity) {
    && Token(identity.name)
    && Bounded(identity.version) && Visible(identity.version)
    && Readable(identity.packageId)
    && (match identity.sourceId
        case Some(source) =>
          && identity.pathDigest.None? && Readable(source)
          && (exists rest :: identity.packageId == source + rest)
          && (exists front :: identity.packageId == front + Coordinates(identity))
        case None =>
          && identity.pathDigest.Some? && Digest(identity.pathDigest.value)
          && identity.packageId == AsciiBytes("path+blake3:") + identity.pathDigest.value + Coordinates(identity))
  }

  lemma PrefixMeansRest(text: Text, source: Text)
    ensures source <= text <==> exists rest :: text == source + rest
  {
    if source <= text {
      assert text == source + text[|source|..];
    }
  }

  lemma SuffixMeansFront(text: Text, suffix: Text)
    ensures EndsWith(text, suffix) <==> exists front :: text == front + suffix
  {
    if EndsWith(text, suffix) {
      assert text == text[..|text| - |suffix|] + suffix;
    }
    if front :| text == front + suffix {
      assert text[|text| - |suffix|..] == suffix;
    }
  }

  lemma {:induction false} AsciiSize(text: Text)
    requires forall c :: c in text ==> c < 0x80
    ensures TextSize(text) == |text|
  {
    if text != [] {
      var first, rest := text[0], text[1..];
      assert text == [first] + rest;
      assert first in text && forall c :: c in rest ==> c in text;
      AsciiSize(rest);
    }
  }

  lemma TokenIsMachineToken(text: Text)
    ensures Token(text) <==> ValidateString(text, false).Success? && IsMachineToken(text)
  {
    hide TextSize;
    assert forall c :: OneOf(c, "_-.") <==> c in {95, 45, 46} by {
      forall c ensures OneOf(c, "_-.") <==> c in {95, 45, 46} {
        var s := "_-.";
        assert s[0] as int == 95 && s[1] as int == 45 && s[2] as int == 46;
      }
    }
  }

  lemma SelectorIsExact(text: Text)
    ensures SelectorText(text) <==> IsSelector(text)
  {
    forall c ensures OneOf(c, "_-+./?") <==> c in {95, 45, 43, 46, 47, 63} {
      var s := "_-+./?";
      assert s[0] as int == 95 && s[1] as int == 45 && s[2] as int == 43;
      assert s[3] as int == 46 && s[4] as int == 47 && s[5] as int == 63;
    }
  }

  lemma ReadableIsValid(text: Text)
    ensures Readable(text) <==> ValidateString(text, false).Success?
    ensures Bounded(text) <==> ValidateString(text, true).Success?
  {
    hide TextSize;
  }

  lemma DigestIsExact(text: Text)
    ensures Digest(text) <==> IsDigest(text)
  {
    if forall c :: c in text ==> 48 <= c <= 57 || 97 <= c <= 102 {
      AsciiSize(text);
    }
    hide TextSize;
  }

  lemma FeatureIsExact(text: Text)
    ensures Feature(text) <==> IsFeature(text)
  {
    if forall c :: c in text ==> IsGraphic(c) {
      AsciiSize(text);
    }
    hide TextSize;
  }

  lemma FeatureSetIsExact(features: TextSet)
    ensures FeatureSet(features) <==> ValidateFeatures(features).Success?
  {
    hide Feature, IsFeature;
    forall f ensures Feature(f) <==> IsFeature(f) {
      FeatureIsExact(f);
    }
  }

  lemma CoordinatesAreExact(identity: PackageIdentity)
    ensures NameAndVersion(identity) == Coordinates(identity)
  {
    assert AsciiBytes("#") == [35] && AsciiBytes("@") == [64];
  }

  lemma PathIdEndsInCoordinates(identity: PackageIdentity, digest: Text)
    requires identity.packageId == AsciiBytes("path+blake3:") + digest + Coordinates(identity)
    ensures EndsWith(identity.packageId, Coordinates(identity))
  {
    SuffixMeansFront(identity.packageId, Coordinates(identity));
  }

  /** The validator accepts exactly the good identities. */
  lemma IdentityIsValidWhenGood(identity: PackageIdentity)
    ensures ValidateIdentity(identity).Success? <==> GoodIdentity(identity)
  {
    hide ValidateString, EndsWith, IsDigest, Digest, Readable, Bounded, Coordinates, NameAndVersion;
    TokenIsMachineToken(identity.name);
    ReadableIsValid(identity.version);
    VisibleIsReadable(identity.version);
    ReadableIsValid(identity.packageId);
    CoordinatesAreExact(identity);
    SuffixMeansFront(identity.packageId, Coordinates(identity));
    match identity.sourceId
    case Some(source) =>
      ReadableIsValid(source);
      PrefixMeansRest(identity.packageId, source);
    case None =>
      if identity.pathDigest.Some? {
        DigestIsExact(identity.pathDigest.value);
        if identity.packageId == AsciiBytes("path+blake3:") + identity.pathDigest.value + Coordinates(identity) {
          PathIdEndsInCoordinates(identity, identity.pathDigest.value);
        }
      }
  }

  lemma VisibleIsReadable(text: Text)
    ensures Bounded(text) && Visible(text) <==> Readable(text) && Visible(text)
  {
  }

  // ----- Selections, rows and receipts -----

  /** A token for a target if there is one, selector features, and none when all are selected. */
  predicate GoodSelection(selection: Selection) {
    && (selection.target.Some? ==> Token(selection.target.value))
    && FeatureSet(selection.features) && (forall f :: f in selection.features ==> SelectorText(f))
    && (selection.allFeatures ==> selection.features == [])
  }

  lemma SelectionIsValidWhenGood(selection: Selection)
    ensures ValidateSelection(selection).Success? <==> GoodSelection(selection)
  {
    hide ValidateString, ValidateFeatures, Token, FeatureSet, SelectorText, IsSelector, IsMachineToken;
    if selection.target.Some? {
      TokenIsMachineToken(selection.target.value);
    }
    FeatureSetIsExact(selection.features);
    forall f ensures SelectorText(f) <==> IsSelector(f) {
      SelectorIsExact(f);
    }
  }

  ghost predicate GoodRow(row: PackageRow) {
    GoodIdentity(row.identity) && FeatureSet(row.features)
  }

  lemma RowIsValidWhenGood(row: PackageRow)
    ensures ValidRow(row) <==> GoodRow(row)
  {
    hide ValidateIdentity, ValidateFeatures, GoodIdentity, FeatureSet;
    IdentityIsValidWhenGood(row.identity);
    FeatureSetIsExact(row.features);
  }

  // ----- Rows in order -----

  /** In the order of code points: the first difference decides, and a proper prefix comes first. */
  ghost predicate TextBefore(a: Text, b: Text) {
    exists k: nat :: k <= |a| && k < |b| && a[..k] == b[..k] && (k < |a| ==> a[k] < b[k])
  }

  ghost predicate SetBefore(a: seq<Text>, b: seq<Text>) {
    exists k: nat :: k <= |a| && k < |b| && a[..k] == b[..k] && (k < |a| ==> TextBefore(a[k], b[k]))
  }

  ghost predicate OptionalBefore(a: Option<Text>, b: Option<Text>) {
    b.Some? && (a.Some? ==> TextBefore(a.value, b.value))
  }

  /** By name, version, package id, source, digest and features, the first difference deciding. */
  ghost predicate RowBefore(a: PackageRow, b: PackageRow) {
    var x, y := a.identity, b.identity;
    || TextBefore(x.name, y.name)
    || (x.name == y.name && TextBefore(x.version, y.version))
    || (x.name == y.name && x.version == y.version && TextBefore(x.packageId, y.packageId))
    || (x.name == y.name && x.version == y.version && x.packageId == y.packageId
        && OptionalBefore(x.sourceId, y.sourceId))
    || (x.(pathDigest := None) == y.(pathDigest := None) && OptionalBefore(x.pathDigest, y.pathDigest))
    || (x == y && SetBefore(a.features, b.features))
  }

  lemma TextOrderIsLexicographic(a: Text, b: Text)
    ensures CompareText(a, b) == Less <==> TextBefore(a, b)
  {
    assert TotalOrder(CompareInt);
    CompareSeqIsLexicographic<int>(CompareInt, a, b);
    if k: nat :| DecidedAt<int>(CompareInt, a, b, k) {
      assert k <= |a| && k < |b| && a[..k] == b[..k] && (k < |a| ==> a[k] < b[k]);
    }
    if TextBefore(a, b) {
      var k: nat :| k <= |a| && k < |b| && a[..k] == b[..k] && (k < |a| ==> a[k] < b[k]);
      assert DecidedAt<int>(CompareInt, a, b, k);
    }
  }

  lemma SetOrderIsLexicographic(a: seq<Text>, b: seq<Text>)
    ensures CompareSet(a, b) == Less <==> SetBefore(a, b)
  {
    hide CompareText, TextBefore;
    TextOrderIsTotal();
    CompareSeqIsLexicographic<Text>(CompareText, a, b);
    forall x: Text, y: Text ensures CompareText(x, y) == Less <==> TextBefore(x, y) {
      TextOrderIsLexicographic(x, y);
    }
    if k: nat :| DecidedAt<Text>(CompareText, a, b, k) {
      assert k <= |a| && k < |b| && a[..k] == b[..k] && (k < |a| ==> TextBefore(a[k], b[k]));
    }
    if SetBefore(a, b) {
      var k: nat :| k <= |a| && k < |b| && a[..k] == b[..k] && (k < |a| ==> TextBefore(a[k], b[k]));
      assert DecidedAt<Text>(CompareText, a, b, k);
    }
  }

  /** The derived order of rows compares their fields in the order of declaration. */
  lemma RowOrderIsLexicographic(a: PackageRow, b: PackageRow)
    ensures CompareRow(a, b) == Less <==> RowBefore(a, b)
  {
    hide CompareText, CompareSet, TextBefore, SetBefore;
    var x, y := a.identity, b.identity;
    TextsCompared(x.name, y.name);
    TextsCompared(x.version, y.version);
    TextsCompared(x.packageId, y.packageId);
    if x.sourceId.Some? && y.sourceId.Some? {
      TextsCompared(x.sourceId.value, y.sourceId.value);
    }
    if x.pathDigest.Some? && y.pathDigest.Some? {
      TextsCompared(x.pathDigest.value, y.pathDigest.value);
    }
    SetOrderIsLexicographic(a.features, b.features);
  }

  lemma TextsCompared(a: Text, b: Text)
    ensures CompareText(a, b) == Less <==> TextBefore(a, b)
    ensures CompareText(a, b) == Equal <==> a == b
    ensures TextBefore(a, b) ==> a != b
  {
    hide CompareText, TextBefore;
    TextOrderIsLexicographic(a, b);
    TextOrderLaws(a, b, a);
  }

  // ----- Receipts -----

  /** The validator accepts exactly the receipts with these parts. */
  ghost predicate GoodReceipt(receipt: Receipt) {
    var units, root := receipt.packages, receipt.root;
    && Digest(receipt.cargo.executableDigest) && Bounded(receipt.cargo.version)
    && GoodRow(root) && GoodSelection(receipt.selection)
    && 1 <= |units| <= 8192
    && (forall i :: 0 <= i < |units| ==> GoodRow(units[i]))
    && (forall i :: 0 < i < |units| ==> RowBefore(units[i - 1], units[i]))
    && (exists i :: 0 <= i < |units| && units[i].identity.name == AsciiBytes("fs-la"))
    && (root.identity.name == AsciiBytes("fs-la") ==> exists i :: 0 <= i < |units| && units[i] == root)
  }

  lemma UnitsAreValidWhenGood(units: seq<PackageRow>)
    ensures ValidateRows(None, units).Success? <==>
            && (forall i :: 0 <= i < |units| ==> GoodRow(units[i]))
            && (forall i :: 0 < i < |units| ==> RowBefore(units[i - 1], units[i]))
  {
    hide ValidRow, GoodRow, CompareRow, RowBefore, ValidateRows;
    RowScanIsExact(None, units);
    forall row: PackageRow ensures ValidRow(row) <==> GoodRow(row) {
      RowIsValidWhenGood(row);
    }
    forall a: PackageRow, b: PackageRow ensures CompareRow(a, b) == Less <==> RowBefore(a, b) {
      RowOrderIsLexicographic(a, b);
    }
    if AllValid(units) {
      forall i | 0 <= i < |units| ensures GoodRow(units[i]) {
        assert units[i] in units;
      }
    }
  }

  /** Validation succeeds exactly on good receipts. */
  lemma ReceiptIsValidWhenGood(receipt: Receipt)
    ensures Validate(receipt).Success? <==> GoodReceipt(receipt)
  {
    hide ValidateString, ValidateIdentity, ValidateFeatures, ValidateSelection, ValidateRows;
    hide IsDigest, Digest, Bounded, GoodIdentity, FeatureSet, GoodSelection, RowBefore;
    DigestIsExact(receipt.cargo.executableDigest);
    ReadableIsValid(receipt.cargo.version);
    RowIsValidWhenGood(receipt.root);
    if GoodIdentity(receipt.root.identity) {
      NamesAreNotEmpty(receipt.root.identity);
    }
    SelectionIsValidWhenGood(receipt.selection);
    UnitsAreValidWhenGood(receipt.packages);
    assert forall row :: row in receipt.packages <==>
             exists i :: 0 <= i < |receipt.packages| && receipt.packages[i] == row;
  }

  lemma NamesAreNotEmpty(identity: PackageIdentity)
    requires GoodIdentity(identity)
    ensures identity.name != []
  {
  }

  // ----- Refusals -----

  /** What an error says about an identity. */
  ghost predicate IdentityFault(identity: PackageIdentity, error: ReceiptError) {
    var source, digest := identity.sourceId, identity.pathDigest;
    match error
    case BadLength =>
      !Bounded(identity.name) || !Bounded(identity.version) || !Bounded(identity.packageId)
      || (source.Some? && !Bounded(source.value))
    case ControlCharacter =>
      !Readable(identity.name) || !Readable(identity.version) || !Readable(identity.packageId)
      || (source.Some? && !Readable(source.value))
    case BadNameOrVersion => !Token(identity.name) || !Visible(identity.version)
    case UnboundNameAndVersion => !exists front :: identity.packageId == front + Coordinates(identity)
    case UnexpectedPathDigest => source.Some? && digest.Some?
    case UnboundSource => source.Some? && !exists rest :: identity.packageId == source.value + rest
    case MissingPathDigest => source.None? && digest.None?
    case BadDigest => source.None? && digest.Some? && !Digest(digest.value)
    case UnboundPathDigest =>
      source.None? && digest.Some?
      && identity.packageId != AsciiBytes("path+blake3:") + digest.value + Coordinates(identity)
    case _ => false
  }

  lemma StringRefusalIsTrue(text: Text, controls: bool)
    ensures ValidateString(text, controls) == Failure(BadLength) <==> !Bounded(text)
    ensures ValidateString(text, controls) == Failure(ControlCharacter) ==> !Readable(text)
    ensures ValidateString(text, controls).Failure? ==>
              ValidateString(text, controls).error in {BadLength, ControlCharacter}
  {
    ReadableIsValid(text);
  }

  /** A refused identity has the fault that it is refused for. */
  lemma IdentityRefusalIsTrue(identity: PackageIdentity)
    requires ValidateIdentity(identity).Failure?
    ensures IdentityFault(identity, ValidateIdentity(identity).error)
  {
    hide ValidateString, EndsWith, IsDigest, Digest, Readable, Bounded, Coordinates, NameAndVersion;
    StringRefusalIsTrue(identity.name, false);
    StringRefusalIsTrue(identity.version, false);
    StringRefusalIsTrue(identity.packageId, false);
    TokenIsMachineToken(identity.name);
    CoordinatesAreExact(identity);
    SuffixMeansFront(identity.packageId, Coordinates(identity));
    if identity.sourceId.Some? {
      StringRefusalIsTrue(identity.sourceId.value, false);
      PrefixMeansRest(identity.packageId, identity.sourceId.value);
    } else if identity.pathDigest.Some? {
      DigestIsExact(identity.pathDigest.value);
    }
  }

  ghost predicate FeatureFault(features: TextSet, error: ReceiptError) {
    || (error == TooManyFeatures && |features| > 1024)
    || (error == BadFeature && exists f :: f in features && !Feature(f))
  }

  ghost predicate SelectionFault(selection: Selection, error: ReceiptError) {
    || (error == BadLength && selection.target.Some? && !Bounded(selection.target.value))
    || (error == ControlCharacter && selection.target.Some? && !Readable(selection.target.value))
    || (error == BadTarget && selection.target.Some? && !Token(selection.target.value))
    || FeatureFault(selection.features, error)
    || (error == BadSelector && exists f :: f in selection.features && !SelectorText(f))
    || (error == ConflictingSelection && selection.allFeatures && selection.features != [])
  }

  lemma FeatureRefusalIsTrue(features: TextSet)
    requires ValidateFeatures(features).Failure?
    ensures FeatureFault(features, ValidateFeatures(features).error)
  {
    hide Feature, IsFeature;
    forall f ensures Feature(f) <==> IsFeature(f) {
      FeatureIsExact(f);
    }
  }

  lemma SelectionRefusalIsTrue(selection: Selection)
    requires ValidateSelection(selection).Failure?
    ensures SelectionFault(selection, ValidateSelection(selection).error)
  {
    hide ValidateString, ValidateFeatures, Bounded, Readable, Token, FeatureFault, SelectorText, IsSelector;
    hide IsMachineToken;
    if selection.target.Some? {
      StringRefusalIsTrue(selection.target.value, false);
      TokenIsMachineToken(selection.target.value);
    }
    if ValidateFeatures(selection.features).Failure? {
      FeatureRefusalIsTrue(selection.features);
    }
    forall f ensures SelectorText(f) <==> IsSelector(f) {
      SelectorIsExact(f);
    }
  }

  ghost predicate UnitFault(units: seq<PackageRow>, error: ReceiptError) {
    || (exists i :: 0 <= i < |units| && IdentityFault(units[i].identity, error))
    || (exists i :: 0 <= i < |units| && FeatureFault(units[i].features, error))
    || (error == RowsNotAscending && exists i :: 0 < i < |units| && !RowBefore(units[i - 1], units[i]))
  }

  lemma {:induction false} RowRefusalIsTrue(units: seq<PackageRow>, k: nat)
    requires k <= |units|
    requires ValidateRows(if k == 0 then None else Some(units[k - 1]), units[k..]).Failure?
    ensures UnitFault(units, ValidateRows(if k == 0 then None else Some(units[k - 1]), units[k..]).error)
    decreases |units| - k
  {
    hide ValidateIdentity, ValidateFeatures, IdentityFault, FeatureFault, CompareRow, RowBefore;
    var rest := units[k..];
    assert k < |units| && rest[0] == units[k] && rest[1..] == units[k + 1..];
    if ValidateIdentity(units[k].identity).Failure? {
      IdentityRefusalIsTrue(units[k].identity);
    } else if ValidateFeatures(units[k].features).Failure? {
      FeatureRefusalIsTrue(units[k].features);
    } else if k > 0 && CompareRow(units[k - 1], units[k]) != Less {
      RowOrderIsLexicographic(units[k - 1], units[k]);
    } else {
      RowRefusalIsTrue(units, k + 1);
    }
  }

  /** What an error says about a receipt. */
  ghost predicate ReceiptFault(receipt: Receipt, error: ReceiptError) {
    var units, root := receipt.packages, receipt.root;
    || (error == BadDigest && !Digest(receipt.cargo.executableDigest))
    || (error == BadLength && !Bounded(receipt.cargo.version))
    || IdentityFault(root.identity, error) || FeatureFault(root.features, error)
    || SelectionFault(receipt.selection, error)
    || (error == BadRowCount && !(1 <= |units| <= 8192))
    || UnitFault(units, error)
    || (error == MissingFsLaUnit && forall i :: 0 <= i < |units| ==> units[i].identity.name != AsciiBytes("fs-la"))
    || (error == MissingRootUnit && root.identity.name == AsciiBytes("fs-la") && root !in units)
  }

  /** A refused receipt has the fault that it is refused for. */
  lemma RefusalIsTrue(receipt: Receipt)
    requires Validate(receipt).Failure?
    ensures ReceiptFault(receipt, Validate(receipt).error)
  {
    hide ValidateString, ValidateIdentity, ValidateFeatures, ValidateSelection, ValidateRows;
    hide IsDigest, Digest, Bounded, IdentityFault, FeatureFault, SelectionFault, UnitFault, GoodIdentity;
    DigestIsExact(receipt.cargo.executableDigest);
    StringRefusalIsTrue(receipt.cargo.version, true);
    ReadableIsValid(receipt.cargo.version);
    IdentityIsValidWhenGood(receipt.root.identity);
    if ValidateIdentity(receipt.root.identity).Failure? {
      IdentityRefusalIsTrue(receipt.root.identity);
    } else {
      NamesAreNotEmpty(receipt.root.identity);
    }
    if ValidateFeatures(receipt.root.features).Failure? {
      FeatureRefusalIsTrue(receipt.root.features);
    }
    if ValidateSelection(receipt.selection).Failure? {
      SelectionRefusalIsTrue(receipt.selection);
    }
    assert receipt.packages[0..] == receipt.packages;
    if ValidateRows(None, receipt.packages).Failure? {
      RowRefusalIsTrue(receipt.packages, 0);
    }
    assert forall i :: 0 <= i < |receipt.packages| ==> receipt.packages[i] in receipt.packages;
  }
}

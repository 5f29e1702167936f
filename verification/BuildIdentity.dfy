/**
 Length-prefixed framing of build-identity fields: a payload determines its fields, absent, empty
 and literal values never collide, and a source closure is framed the same in any discovery order.
 */
module BuildIdentity {
  import opened Wrappers
  import opened Bytes
  import opened Orderings

  type ByteString = seq<uint8>

  datatype Field = Field(name: ByteString, value: ByteString)

  const LENGTH_LIMIT := 0x1_0000_0000_0000_0000

  /** Lengths that fit their 64-bit prefix. */
  predicate Fits(f: Field) {
    |f.name| < LENGTH_LIMIT && |f.value| < LENGTH_LIMIT
  }

  function Framed(part: ByteString): ByteString {
    LittleEndian(|part|, 8) + part
  }

  function FieldBytes(f: Field): ByteString {
    Framed(f.name) + Framed(f.value)
  }

  function Payload(fields: seq<Field>): ByteString {
    if fields == [] then [] else FieldBytes(fields[0]) + Payload(fields[1..])
  }

  // ----- Unique decodability -----

  /** Takes one length-prefixed part off the front. */
  function TakePart(bytes: ByteString): Option<(ByteString, ByteString)> {
    if |bytes| < 8 then None
    else
      var length := FromLittleEndian(bytes[..8]);
      if |bytes| < 8 + length then None else Some((bytes[8..8 + length], bytes[8 + length..]))
  }

  function Decode(bytes: ByteString): Option<seq<Field>>
    decreases |bytes|
  {
    if bytes == [] then Some([])
    else
      match TakePart(bytes)
      case None => None
      case Some((name, rest)) =>
        match TakePart(rest)
        case None => None
        case Some((value, tail)) =>
          match Decode(tail)
          case None => None
          case Some(fields) => Some([Field(name, value)] + fields)
  }

  lemma TakeFramed(part: ByteString, rest: ByteString)
    requires |part| < LENGTH_LIMIT
    ensures TakePart(Framed(part) + rest) == Some((part, rest))
  {
    Pow256Values();
    LittleEndianRoundTrip(|part|, 8);
    var bytes := Framed(part) + rest;
    assert bytes[..8] == LittleEndian(|part|, 8);
    assert bytes[8..8 + |part|] == part;
    assert bytes[8 + |part|..] == rest;
  }

  /** Decoding a payload gives its fields back. */
  lemma {:induction false} DecodePayload(fields: seq<Field>)
    requires forall f :: f in fields ==> Fits(f)
    ensures Decode(Payload(fields)) == Some(fields)
    decreases |fields|
  {
    hide TakePart, FieldBytes, Framed;
    if fields != [] {
      var f := fields[0];
      assert f in fields && Fits(f);
      DecodePayload(fields[1..]);
      DecodeOne(f, fields[1..]);
      assert fields == [f] + fields[1..];
    }
  }

  lemma DecodeOne(f: Field, rest: seq<Field>)
    requires Fits(f) && Decode(Payload(rest)) == Some(rest)
    ensures Decode(Payload([f] + rest)) == Some([f] + rest)
  {
    hide TakePart, Payload, Framed;
    PayloadSplits([f] + rest);
    assert ([f] + rest)[1..] == rest;
    TakeFramed(f.name, Framed(f.value) + Payload(rest));
    TakeFramed(f.value, Payload(rest));
    FramedIsNotEmpty(f.name);
  }

  lemma PayloadSplits(fields: seq<Field>)
    requires fields != []
    ensures Payload(fields) == Framed(fields[0].name) + (Framed(fields[0].value) + Payload(fields[1..]))
  {
  }

  lemma FramedIsNotEmpty(part: ByteString)
    ensures |Framed(part)| == 8 + |part|
  {
  }

  /** Equal payloads come from equal field sequences. */
  lemma PayloadIsInjective(a: seq<Field>, b: seq<Field>)
    requires forall f :: f in a + b ==> Fits(f)
    ensures Payload(a) == Payload(b) <==> a == b
  {
    hide Decode, Fits, Payload;
    forall f | f in a ensures Fits(f) {
      assert f in a + b;
    }
    forall f | f in b ensures Fits(f) {
      assert f in a + b;
    }
    DecodePayload(a);
    DecodePayload(b);
  }

  lemma {:induction false} PayloadConcat(a: seq<Field>, b: seq<Field>)
    ensures Payload(a + b) == Payload(a) + Payload(b)
    decreases |a|
  {
    hide FieldBytes;
    if a == [] {
      assert a + b == b;
    } else {
      PayloadConcat(a[1..], b);
      assert (a + b)[1..] == a[1..] + b;
      assert Payload(a + b) == FieldBytes(a[0]) + (Payload(a[1..]) + Payload(b));
    }
  }

  // ----- Optional values -----

  /** A presence field, then the value if there is one. */
  function OptionalFields(name: ByteString, value: Option<ByteString>): seq<Field> {
    [Field(name + AsciiBytes(":presence"), if value.Some? then AsciiBytes("present") else AsciiBytes("absent"))]
    + if value.Some? then [Field(name, value.value)] else []
  }

  /** A field says whether the value is there, in one of two words; the value follows if it is. */
  lemma PresenceIsSpelled(name: ByteString, value: ByteString)
    ensures OptionalFields(name, None) == [Field(name + AsciiBytes(":presence"), AsciiBytes("absent"))]
    ensures OptionalFields(name, Some(value))
            == [Field(name + AsciiBytes(":presence"), AsciiBytes("present")), Field(name, value)]
  {
  }

  /** Whatever follows, an optional value is determined by the payload: absent, empty and literal differ. */
  lemma OptionalValuesNeverCollide(
    before: seq<Field>, name: ByteString, v: Option<ByteString>, w: Option<ByteString>,
    after: seq<Field>, after': seq<Field>)
    requires forall f :: f in before + OptionalFields(name, v) + after ==> Fits(f)
    requires forall f :: f in before + OptionalFields(name, w) + after' ==> Fits(f)
    requires Payload(before + OptionalFields(name, v) + after) == Payload(before + OptionalFields(name, w) + after')
    ensures v == w && after == after'
  {
    var a, b := before + OptionalFields(name, v) + after, before + OptionalFields(name, w) + after';
    hide Payload, Fits;
    PayloadIsInjective(a, b);
    var k := |before|;
    assert a[k] == OptionalFields(name, v)[0] && b[k] == OptionalFields(name, w)[0];
    assert |AsciiBytes("present")| == 7 && |AsciiBytes("absent")| == 6;
    assert v.Some? == w.Some?;
    if v.Some? {
      assert a[k + 1] == Field(name, v.value) && b[k + 1] == Field(name, w.value);
    }
    assert after == a[k + |OptionalFields(name, v)|..] && after' == b[k + |OptionalFields(name, w)|..];
  }

  // ----- Source closures -----

  function CompareBytes(a: ByteString, b: ByteString): Order {
    CompareSeq<int>(CompareInt, a, b)
  }

  /** By name, then by value. */
  function CompareField(a: Field, b: Field): Order {
    CompareBytes(a.name, b.name).Then(CompareBytes(a.value, b.value))
  }

  lemma BytesOrderLaws(a: ByteString, b: ByteString, c: ByteString)
    ensures CompareBytes(a, b) == Equal <==> a == b
    ensures CompareBytes(a, b) == Less <==> CompareBytes(b, a) == Greater
    ensures CompareBytes(a, b) == Less && CompareBytes(b, c) == Less ==> CompareBytes(a, c) == Less
  {
    assert TotalOrder(CompareInt);
    CompareSeqEqual<int>(CompareInt, a, b);
    CompareSeqReverse<int>(CompareInt, a, b);
    if CompareBytes(a, b) == Less && CompareBytes(b, c) == Less {
      CompareSeqTransitive<int>(CompareInt, a, b, c);
    }
  }

  lemma FieldOrderLaws(a: Field, b: Field, c: Field)
    ensures CompareField(a, b) == Equal <==> a == b
    ensures CompareField(a, b) == Less <==> CompareField(b, a) == Greater
    ensures CompareField(a, b) == Less && CompareField(b, c) == Less ==> CompareField(a, c) == Less
  {
    hide CompareBytes;
    BytesOrderLaws(a.name, b.name, c.name);
    BytesOrderLaws(b.name, c.name, a.name);
    BytesOrderLaws(b.name, a.name, c.name);
    BytesOrderLaws(a.value, b.value, c.value);
    BytesOrderLaws(b.value, c.value, a.value);
    BytesOrderLaws(b.value, a.value, c.value);
  }

  lemma FieldOrderIsTotal()
    ensures TotalOrder<Field>(CompareField)
  {
    hide CompareField;
    forall a: Field, b: Field, c: Field
      ensures CompareField(a, b) == Equal <==> a == b
      ensures CompareField(a, b) == Less <==> CompareField(b, a) == Greater
      ensures CompareField(a, b) == Less && CompareField(b, c) == Less ==> CompareField(a, c) == Less
    {
      FieldOrderLaws(a, b, c);
    }
  }

  function NameOf(f: Field): ByteString {
    f.name
  }

  /** In order of names; equal names are tied. */
  predicate NamesInOrder(a: Field, b: Field) {
    CompareBytes(a.name, b.name) != Greater
  }

  lemma NamesAreOrdered()
    ensures Preorder<Field>(NamesInOrder)
  {
    hide CompareBytes;
    forall a: Field, b: Field, c: Field
      ensures NamesInOrder(a, b) || NamesInOrder(b, a)
      ensures NamesInOrder(a, b) && NamesInOrder(b, c) ==> NamesInOrder(a, c)
    {
      BytesOrderLaws(a.name, b.name, c.name);
      BytesOrderLaws(b.name, a.name, c.name);
      BytesOrderLaws(b.name, c.name, a.name);
      BytesOrderLaws(c.name, b.name, a.name);
      BytesOrderLaws(a.name, c.name, b.name);
    }
  }

  predicate DuplicateFree(fields: seq<Field>) {
    DistinctKeys<Field, ByteString>(fields, NameOf)
  }

  /** The fields in order of their names. */
  function SortFields(fields: seq<Field>): (r: seq<Field>)
    ensures Permutation(r, fields)
  {
    Sort<Field>(NamesInOrder, fields)
  }

  lemma SortFieldsSorts(fields: seq<Field>)
    ensures Sorted<Field>(NamesInOrder, SortFields(fields))
  {
    NamesAreOrdered();
    SortSorts<Field>(NamesInOrder, fields);
  }

  /** Neighbours of a sorted list differ in name. */
  predicate NeighboursDiffer(fields: seq<Field>) {
    forall i :: 0 < i < |fields| ==> fields[i - 1].name != fields[i].name
  }

  /** An entry and a later one are kept apart by the entry between them. */
  lemma NamesAscendAcrossGaps(fields: seq<Field>, i: nat, j: nat)
    requires Sorted<Field>(NamesInOrder, fields) && NeighboursDiffer(fields) && i < j < |fields|
    ensures CompareBytes(fields[i].name, fields[j].name) == Less
  {
    hide CompareBytes;
    var a, m, c := fields[i].name, fields[j - 1].name, fields[j].name;
    assert NamesInOrder(fields[j - 1], fields[j]);
    BytesOrderLaws(m, c, c);
    if i < j - 1 {
      assert NamesInOrder(fields[i], fields[j - 1]);
      BytesOrderLaws(a, m, c);
    }
  }

  /** Comparing neighbours after sorting finds every duplicate name. */
  lemma DuplicateTestIsExact(fields: seq<Field>)
    ensures NeighboursDiffer(SortFields(fields)) <==> DuplicateFree(fields)
  {
    hide CompareBytes;
    var sorted := SortFields(fields);
    SortFieldsSorts(fields);
    hide SortFields;
    if NeighboursDiffer(sorted) {
      forall i, j | 0 <= i < j < |sorted| ensures sorted[i].name != sorted[j].name {
        NamesAscendAcrossGaps(sorted, i, j);
        BytesOrderLaws(sorted[i].name, sorted[j].name, sorted[j].name);
      }
      DistinctKeysOfPermutation<Field, ByteString>(sorted, fields, NameOf);
    }
    if DuplicateFree(fields) {
      DistinctKeysOfPermutation<Field, ByteString>(fields, sorted, NameOf);
      assert forall i :: 0 < i < |sorted| ==> NameOf(sorted[i - 1]) != NameOf(sorted[i]);
    }
  }

  function SourceField(f: Field): Field {
    Field(AsciiBytes("source:") + f.name, f.value)
  }

  function SourceFields(fields: seq<Field>): seq<Field> {
    seq(|fields|, i requires 0 <= i < |fields| => SourceField(fields[i]))
  }

  /** The bytes of a source closure, or nothing when a path is listed twice. */
  function SourceBytes(fields: seq<Field>): Option<ByteString> {
    var sorted := SortFields(fields);
    if NeighboursDiffer(sorted) then Some(Payload(SourceFields(sorted))) else None
  }

  lemma SourceFieldsAreInjective(a: seq<Field>, b: seq<Field>)
    requires SourceFields(a) == SourceFields(b)
    ensures a == b
  {
    assert |a| == |SourceFields(a)| == |b|;
    forall i | 0 <= i < |a| ensures a[i] == b[i] {
      var prefix := AsciiBytes("source:");
      assert SourceFields(a)[i] == SourceFields(b)[i];
      assert (prefix + a[i].name)[|prefix|..] == a[i].name && (prefix + b[i].name)[|prefix|..] == b[i].name;
    }
  }

  /** The sorted listing of a duplicate-free closure depends only on its contents. */
  lemma SortingForgetsOrder(a: seq<Field>, b: seq<Field>)
    requires DuplicateFree(a) && DuplicateFree(b) && forall f :: f in a <==> f in b
    ensures SortFields(a) == SortFields(b)
  {
    var s, t := SortFields(a), SortFields(b);
    SortedIsAscending(a);
    SortedIsAscending(b);
    FieldOrderIsTotal();
    forall f ensures f in s <==> f in t {
      SortKeepsMembers(a, f);
      SortKeepsMembers(b, f);
    }
    hide SortFields, CompareField, DuplicateFree;
    AscendingListingIsUnique<Field>(CompareField, s, t);
  }

  lemma SortKeepsMembers(a: seq<Field>, f: Field)
    ensures f in SortFields(a) <==> f in a
  {
    hide SortFields;
    PermutationFacts(SortFields(a), a);
  }

  lemma SortedIsAscending(fields: seq<Field>)
    requires DuplicateFree(fields)
    ensures Ascending<Field>(CompareField, SortFields(fields))
  {
    hide CompareBytes, SortFields;
    var s := SortFields(fields);
    SortFieldsSorts(fields);
    DuplicateTestIsExact(fields);
    forall i | 0 < i < |s| ensures CompareField(s[i - 1], s[i]) == Less {
      BytesOrderLaws(s[i - 1].name, s[i].name, s[i].name);
    }
  }

  predicate SourcesFit(fields: seq<Field>) {
    forall f :: f in fields ==> Fits(SourceField(f))
  }

  /** A closure is framed exactly when no path repeats. */
  lemma FramedUnlessDuplicated(fields: seq<Field>)
    ensures SourceBytes(fields).Some? <==> DuplicateFree(fields)
  {
    DuplicateTestIsExact(fields);
  }

  /** Two closures are framed alike exactly when they hold the same files, whatever their discovery order. */
  lemma SourceFramingIsExact(a: seq<Field>, b: seq<Field>)
    requires SourcesFit(a) && SourcesFit(b) && DuplicateFree(a) && DuplicateFree(b)
    ensures SourceBytes(a) == SourceBytes(b) <==> forall f :: f in a <==> f in b
  {
    DuplicateTestIsExact(a);
    DuplicateTestIsExact(b);
    if SourceBytes(a) == SourceBytes(b) {
      var s, t := SortFields(a), SortFields(b);
      SourcesOfSortedFit(a);
      SourcesOfSortedFit(b);
      hide SortFields, Payload, Fits, SourceFields;
      forall f | f in SourceFields(s) + SourceFields(t) ensures Fits(f) {
      }
      PayloadIsInjective(SourceFields(s), SourceFields(t));
      SourceFieldsAreInjective(s, t);
      forall f ensures f in a <==> f in b {
        SortKeepsMembers(a, f);
        SortKeepsMembers(b, f);
      }
    }
    if forall f :: f in a <==> f in b {
      SortingForgetsOrder(a, b);
    }
  }

  lemma SourcesOfSortedFit(fields: seq<Field>)
    requires SourcesFit(fields)
    ensures forall f :: f in SourceFields(SortFields(fields)) ==> Fits(f)
  {
    hide SortFields, Fits;
    var sorted := SortFields(fields);
    forall f | f in SourceFields(sorted) ensures Fits(f) {
      var i :| 0 <= i < |sorted| && SourceFields(sorted)[i] == f;
      SortKeepsMembers(fields, sorted[i]);
    }
  }

  /** The external part: the lock, then its source closure. */
  function ExternalBytes(lock: ByteString, fields: seq<Field>): Option<ByteString> {
    match SourceBytes(fields)
    case None => None
    case Some(bytes) => Some(FieldBytes(Field(AsciiBytes("constellation.lock"), lock)) + bytes)
  }

  /** The external part binds both the lock and the closure. */
  lemma ExternalFramingIsExact(lock: ByteString, a: seq<Field>, lock': ByteString, b: seq<Field>)
    requires SourcesFit(a) && SourcesFit(b) && DuplicateFree(a) && DuplicateFree(b)
    requires |lock| < LENGTH_LIMIT && |lock'| < LENGTH_LIMIT
    ensures ExternalBytes(lock, a) == ExternalBytes(lock', b) <==> lock == lock' && forall f :: f in a <==> f in b
  {
    hide SourceBytes, FieldBytes, DuplicateFree, SourcesFit;
    FramedUnlessDuplicated(a);
    FramedUnlessDuplicated(b);
    SourceFramingIsExact(a, b);
    FirstFieldIsBound(AsciiBytes("constellation.lock"), lock, SourceBytes(a).value, lock', SourceBytes(b).value);
  }

  lemma FirstFieldIsBound(name: ByteString, v: ByteString, x: ByteString, w: ByteString, y: ByteString)
    requires |name| < LENGTH_LIMIT && |v| < LENGTH_LIMIT && |w| < LENGTH_LIMIT
    ensures FieldBytes(Field(name, v)) + x == FieldBytes(Field(name, w)) + y <==> v == w && x == y
  {
    hide Framed, TakePart;
    assert FieldBytes(Field(name, v)) + x == Framed(name) + (Framed(v) + x);
    assert FieldBytes(Field(name, w)) + y == Framed(name) + (Framed(w) + y);
    hide FieldBytes;
    TakeFramed(name, Framed(v) + x);
    TakeFramed(name, Framed(w) + y);
    TakeFramed(v, x);
    TakeFramed(w, y);
  }

  /** A decoded external payload names the lock, and then each file of the closure in order of names. */
  lemma ExternalNames(lock: ByteString, files: seq<Field>) returns (fields: seq<Field>)
    requires SourcesFit(files) && DuplicateFree(files) && |lock| < LENGTH_LIMIT
    ensures ExternalBytes(lock, files).Some? && Decode(ExternalBytes(lock, files).value) == Some(fields)
    ensures |fields| == |files| + 1 && fields[0] == Field(AsciiBytes("constellation.lock"), lock)
    ensures forall f :: f in files <==>
                        Field(AsciiBytes("source:") + f.name, f.value) in fields[1..]
    ensures forall i :: 1 < i < |fields| ==> CompareBytes(fields[i - 1].name, fields[i].name) == Less
  {
    var sorted, first := SortFields(files), Field(AsciiBytes("constellation.lock"), lock);
    FramedUnlessDuplicated(files);
    SourcesOfSortedFit(files);
    var sources := SourceFields(sorted);
    fields := [first] + sources;
    ListedSources(files);
    NamesAscend(files);
    hide SortFields, SourcesFit, DuplicateFree, FieldBytes, CompareBytes, SourceField, NeighboursDiffer;
    PayloadConcat([first], sources);
    OneOrTwoFields(first, first);
    DecodePayload(fields);
  }

  lemma ListedSources(files: seq<Field>)
    ensures |SourceFields(SortFields(files))| == |files|
    ensures forall f :: f in files <==> SourceField(f) in SourceFields(SortFields(files))
  {
    var sorted := SortFields(files);
    PermutationFacts(sorted, files);
    hide SortFields;
    forall f ensures f in sorted <==> SourceField(f) in SourceFields(sorted) {
      if f in sorted {
        var i :| 0 <= i < |sorted| && sorted[i] == f;
        assert SourceFields(sorted)[i] == SourceField(f);
      }
      if SourceField(f) in SourceFields(sorted) {
        var i :| 0 <= i < |sorted| && SourceFields(sorted)[i] == SourceField(f);
        SourceFieldsAreInjective([f], [sorted[i]]);
      }
    }
  }

  lemma {:induction false} PrefixKeepsOrder(prefix: ByteString, a: ByteString, b: ByteString)
    ensures CompareBytes(prefix + a, prefix + b) == CompareBytes(a, b)
  {
    if prefix == [] {
      assert prefix + a == a && prefix + b == b;
    } else {
      PrefixKeepsOrder(prefix[1..], a, b);
      assert (prefix + a)[1..] == prefix[1..] + a && (prefix + b)[1..] == prefix[1..] + b;
    }
  }

  lemma NamesAscend(files: seq<Field>)
    requires DuplicateFree(files)
    ensures var fields := SourceFields(SortFields(files));
            forall i :: 0 < i < |fields| ==> CompareBytes(fields[i - 1].name, fields[i].name) == Less
  {
    var sorted := SortFields(files);
    DuplicateTestIsExact(files);
    SortFieldsSorts(files);
    hide SortFields, CompareBytes;
    forall i | 0 < i < |sorted|
      ensures CompareBytes(SourceField(sorted[i - 1]).name, SourceField(sorted[i]).name) == Less
    {
      NamesAscendAcrossGaps(sorted, i - 1, i);
      PrefixKeepsOrder(AsciiBytes("source:"), sorted[i - 1].name, sorted[i].name);
    }
  }

  // ----- Appending to a payload -----

  lemma Regroup(p: ByteString, a: ByteString, b: ByteString, c: ByteString, d: ByteString)
    ensures p + a + b + c + d == p + ((a + b) + (c + d))
  {
  }

  class PayloadBuffer {
    var payload: ByteString

    constructor ()
      ensures payload == []
    {
      payload := [];
    }

    method PushField(name: ByteString, value: ByteString)
      modifies this
      ensures payload == old(payload) + FieldBytes(Field(name, value))
    {
      hide LittleEndian;
      ghost var before := payload;
      payload := payload + LittleEndian(|name|, 8);
      payload := payload + name;
      payload := payload + LittleEndian(|value|, 8);
      payload := payload + value;
      Regroup(before, LittleEndian(|name|, 8), name, LittleEndian(|value|, 8), value);
    }

    method PushOptionalField(name: ByteString, value: Option<ByteString>)
      modifies this
      ensures payload == old(payload) + Payload(OptionalFields(name, value))
    {
      hide FieldBytes;
      var presence := if value.Some? then AsciiBytes("present") else AsciiBytes("absent");
      ghost var first := Field(name + AsciiBytes(":presence"), presence);
      OneOrTwoFields(first, Field(name, if value.Some? then value.value else []));
      PushField(name + AsciiBytes(":presence"), presence);
      if value.Some? {
        PushField(name, value.value);
        assert OptionalFields(name, value) == [first, Field(name, value.value)];
      } else {
        assert OptionalFields(name, value) == [first];
      }
    }

    /** Appends a source closure; a repeated path is a fault that leaves the payload alone. */
    method AppendSourceFields(fields: seq<Field>) returns (ok: bool)
      modifies this
      ensures ok <==> SourceBytes(fields).Some?
      ensures payload == old(payload) + if ok then SourceBytes(fields).value else []
    {
      hide FieldBytes, SortFields;
      var sorted := SortFields(fields);
      if !NeighboursDiffer(sorted) {
        return false;
      }
      ghost var before := payload;
      assert SourceFields(sorted[..0]) == [];
      for i := 0 to |sorted|
        invariant payload == before + Payload(SourceFields(sorted[..i]))
      {
        var f := sorted[i];
        assert SourceFields(sorted[..i + 1]) == SourceFields(sorted[..i]) + [SourceField(f)];
        PayloadConcat(SourceFields(sorted[..i]), [SourceField(f)]);
        OneOrTwoFields(SourceField(f), f);
        PushField(AsciiBytes("source:") + f.name, f.value);
      }
      assert sorted[..|sorted|] == sorted;
      return true;
    }

    method AppendExternalIdentity(lock: ByteString, fields: seq<Field>) returns (ok: bool)
      modifies this
      ensures ok <==> ExternalBytes(lock, fields).Some?
      ensures ok ==> payload == old(payload) + ExternalBytes(lock, fields).value
    {
      hide FieldBytes, SourceBytes;
      PushField(AsciiBytes("constellation.lock"), lock);
      ok := AppendSourceFields(fields);
    }
  }

  lemma OneOrTwoFields(a: Field, b: Field)
    ensures Payload([a]) == FieldBytes(a) && Payload([a, b]) == FieldBytes(a) + FieldBytes(b)
  {
    hide FieldBytes;
    assert [a][1..] == [] && [a, b][1..] == [b] && [b][1..] == [];
    assert Payload([b]) == FieldBytes(b);
  }
}

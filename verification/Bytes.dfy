/** Fixed-width integers, byte strings, and little-endian integer framing. */
module Bytes {
  import opened Wrappers

  type uint8 = x: int | 0 <= x < 0x100
  type uint16 = x: int | 0 <= x < 0x1_0000
  type uint32 = x: int | 0 <= x < 0x1_0000_0000
  type uint64 = x: int | 0 <= x < 0x1_0000_0000_0000_0000

  const MAX_UINT16: int := 0xFFFF
  const MAX_UINT32: int := 0xFFFF_FFFF
  const MAX_UINT64: int := 0xFFFF_FFFF_FFFF_FFFF

  /** `part` occurs in `bytes` at offset `pos`. */
  ghost predicate At(bytes: seq<uint8>, pos: nat, part: seq<uint8>) {
    pos + |part| <= |bytes| && bytes[pos..pos + |part|] == part
  }

  /** Two fields occur back to back exactly when each occurs at its own offset. */
  lemma AtConcat(bytes: seq<uint8>, pos: nat, a: seq<uint8>, b: seq<uint8>)
    ensures At(bytes, pos, a + b) <==> At(bytes, pos, a) && At(bytes, pos + |a|, b)
  {
    if pos + |a| + |b| <= |bytes| {
      var whole := bytes[pos..pos + |a| + |b|];
      assert whole[..|a|] == bytes[pos..pos + |a|];
      assert whole[|a|..] == bytes[pos + |a|..pos + |a| + |b|];
      assert whole == whole[..|a|] + whole[|a|..];
      assert (a + b)[..|a|] == a && (a + b)[|a|..] == b;
    }
  }

  /** Every byte is an ASCII code. */
  predicate IsAscii(bytes: seq<uint8>) {
    forall b :: b in bytes ==> b < 0x80
  }

  /** The bytes of an ASCII string: the low seven bits of each character. */
  function AsciiBytes(text: string): (bytes: seq<uint8>)
    ensures |bytes| == |text| && IsAscii(bytes)
  {
    seq(|text|, i requires 0 <= i < |text| => text[i] as int % 0x80)
  }

  /** 256 to the power `width`. */
  ghost function Pow256(width: nat): (p: nat)
    ensures p > 0
  {
    if width == 0 then 1 else 256 * Pow256(width - 1)
  }

  lemma Pow256Values()
    ensures Pow256(1) == 0x100 && Pow256(2) == 0x1_0000
    ensures Pow256(4) == 0x1_0000_0000 && Pow256(8) == 0x1_0000_0000_0000_0000
  {
    assert Pow256(3) == 0x100_0000;
    assert Pow256(5) == 0x100_0000_0000 && Pow256(6) == 0x1_0000_0000_0000;
    assert Pow256(7) == 0x100_0000_0000_0000;
  }

  /** The `width` low-order bytes of `value`, least significant first. */
  function LittleEndian(value: nat, width: nat): (bytes: seq<uint8>)
    ensures |bytes| == width
    decreases width
  {
    if width == 0 then [] else [value % 256] + LittleEndian(value / 256, width - 1)
  }

  function FromLittleEndian(bytes: seq<uint8>): (value: nat)
    ensures value < Pow256(|bytes|)
  {
    if bytes == [] then 0 else bytes[0] + 256 * FromLittleEndian(bytes[1..])
  }

  /** The two directions are inverse on every value that fits. */
  lemma {:induction false} LittleEndianRoundTrip(value: nat, width: nat)
    requires value < Pow256(width)
    ensures FromLittleEndian(LittleEndian(value, width)) == value
    decreases width
  {
    if width > 0 {
      LittleEndianRoundTrip(value / 256, width - 1);
      assert LittleEndian(value, width)[1..] == LittleEndian(value / 256, width - 1);
    }
  }

  lemma {:induction false} FromLittleEndianRoundTrip(bytes: seq<uint8>)
    ensures LittleEndian(FromLittleEndian(bytes), |bytes|) == bytes
  {
    if bytes != [] {
      FromLittleEndianRoundTrip(bytes[1..]);
      assert bytes == [bytes[0]] + bytes[1..];
    }
  }

  /** A read of `width` bytes returns `value` exactly when the encoding of `value` stands there. */
  lemma LittleEndianAt(bytes: seq<uint8>, pos: nat, width: nat, value: nat)
    requires value < Pow256(width)
    ensures At(bytes, pos, LittleEndian(value, width))
            <==> pos + width <= |bytes| && FromLittleEndian(bytes[pos..pos + width]) == value
  {
    LittleEndianRoundTrip(value, width);
    if pos + width <= |bytes| {
      FromLittleEndianRoundTrip(bytes[pos..pos + width]);
    }
  }

  // ----- Buffers that grow and cursors that move -----

  lemma AppendShifts(a: seq<uint8>, b: seq<uint8>, c: seq<uint8>)
    ensures a + b + c == a + (b + c)
  {
  }

  /** `r` and `cursor` are what reading gave: the value and the offset after it, or the error. */
  ghost predicate Reads<T, E>(parsed: Result<(T, nat), E>, r: Result<T, E>, cursor: nat) {
    match parsed
    case Success((value, next)) => r == Success(value) && cursor == next
    case Failure(error) => r == Failure(error)
  }

  /** What is read after `taken` has been read already. */
  ghost function After<T, E>(taken: seq<T>, rest: Result<(seq<T>, nat), E>): Result<(seq<T>, nat), E> {
    match rest
    case Success((values, next)) => Success((taken + values, next))
    case Failure(error) => Failure(error)
  }

  lemma AfterNothing<T, E>(rest: Result<(seq<T>, nat), E>)
    ensures After([], rest) == rest
  {
    assert rest.Success? ==> [] + rest.value.0 == rest.value.0;
  }

  lemma AfterMore<T, E>(taken: seq<T>, value: T, rest: Result<(seq<T>, nat), E>)
    ensures After(taken, After([value], rest)) == After(taken + [value], rest)
  {
    if rest.Success? {
      assert taken + ([value] + rest.value.0) == taken + [value] + rest.value.0;
    }
  }
}

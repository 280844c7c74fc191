/**
 Local file headers and data descriptors, sections 4.3.7 and 4.3.9 of PKWARE's
 APPNOTE.TXT (.ZIP File Format Specification): finding the header that ends where the
 data of an entry begins, and checking it against the central directory.
 */
module ZipHeader {
  import opened Common
  import opened ZipInspect

  type byte = x: int | 0 <= x < 256

  const LOCAL_SIGNATURE := 0x04034b50
  const DESCRIPTOR_SIGNATURE := 0x08074b50
  const MAX_UINT16 := 0xFFFF
  const MAX_UINT32 := 0xFFFF_FFFF

  function U16(b: seq<byte>, i: nat): (r: nat)
    requires i + 2 <= |b|
    ensures r <= MAX_UINT16
  {
    b[i] as int + 256 * (b[i + 1] as int)
  }

  function U32(b: seq<byte>, i: nat): (r: nat)
    requires i + 4 <= |b|
    ensures r <= MAX_UINT32
  {
    U16(b, i) + 0x1_0000 * U16(b, i + 2)
  }

  function U64(b: seq<byte>, i: nat): nat
    requires i + 8 <= |b|
  {
    U32(b, i) + 0x1_0000_0000 * U32(b, i + 4)
  }

  /** What the central directory says about an entry. */
  datatype Central = Central(name: seq<byte>, flags: nat, compression: nat, crc: nat, compressed: nat,
      uncompressed: nat)

  /** A local header at p whose name and extra field end at `offset`. */
  predicate HeaderAt(file: seq<byte>, p: nat, offset: nat)
    requires offset <= |file|
  {
    p + 30 <= offset && U32(file, p) == LOCAL_SIGNATURE && p + 30 + U16(file, p + 26) + U16(file, p + 28) == offset
  }

  /** The scan of the bytes before the data: it succeeds exactly when one header in the
      whole file fits, and then finds it. */
  method FindLocalHeader(file: seq<byte>, offset: nat) returns (start: Option<nat>)
    requires 30 <= offset <= |file|
    ensures
      start.Some? ==> HeaderAt(file, start.value, offset) && forall q :: HeaderAt(file, q, offset) ==> q == start.value
    ensures start.None? ==>
      || (forall q :: !HeaderAt(file, q, offset))
      || exists p, q :: p != q && HeaderAt(file, p, offset) && HeaderAt(file, q, offset)
  {
    var windowSize := if offset > 30 + MAX_UINT16 * 2 then 30 + MAX_UINT16 * 2 else offset;
    var windowStart := offset - windowSize;
    var window := file[windowStart..offset];
    start := None;
    var i := |window| - 30;
    while i >= 0
      invariant -1 <= i <= |window| - 30
      invariant start.Some? ==> start.value > windowStart + i && HeaderAt(file, start.value, offset)
      invariant forall q: nat :: HeaderAt(file, q, offset) && q > windowStart + i ==> start.Some? && q == start.value
    {
      SameBytes(file, windowStart, offset, i);
      if U32(window, i) == LOCAL_SIGNATURE && i + 30 + U16(window, i + 26) + U16(window, i + 28) == |window| {
        var p: nat := windowStart + i;
        assert HeaderAt(file, p, offset);
        if start.Some? { return None; }
        start := Some(p);
      }
      i := i - 1;
    }
    forall q: nat | HeaderAt(file, q, offset) ensures q > windowStart - 1 {
    }
  }

  lemma SameBytes(file: seq<byte>, from: nat, to: nat, i: nat)
    requires from <= to <= |file| && i + 30 <= to - from
    ensures var w := file[from..to];
      && U32(w, i) == U32(file, from + i) && U16(w, i + 26) == U16(file, from + i + 26)
      && U16(w, i + 28) == U16(file, from + i + 28)
  {
  }

  /** `validateDataDescriptor`: the length of the descriptor at `at`, if it says what the directory says. */
  function Descriptor(file: seq<byte>, at: nat, zf: Central): (r: Option<nat>)
    requires at <= |file|
    ensures r.Some? ==> at + r.value <= |file|
  {
    var zip64 := zf.compressed > MAX_UINT32 || zf.uncompressed > MAX_UINT32;
    var size := if zip64 then 20 else 12;
    if |file| - at < size then None
    else
      var start := if U32(file, at) == DESCRIPTOR_SIGNATURE then 4 else 0;
      if |file| - at - start < size then None
      else if U32(file, at + start) != zf.crc then None
      else if zip64 then
        if U64(file, at + start + 4) == zf.compressed && U64(file, at + start + 12) == zf.uncompressed
        then Some(start + size) else None
      else if U32(file, at + start + 4) == zf.compressed && U32(file, at + start + 8) == zf.uncompressed
      then Some(start + size)
      else None
  }

  /** A number below 2^32 in base 256. */
  lemma Digits(x: nat)
    requires x <= MAX_UINT32
    ensures x == x % 256 + 256 * (x / 256 % 256) + 0x1_0000 * (x / 0x1_0000 % 256 + 256 * (x / 0x100_0000))
    ensures x / 0x100_0000 < 256
  {
    var y := x / 256;
    var z := y / 256;
    assert x == 256 * y + x % 256 && y == 256 * z + y % 256 && z == 256 * (z / 256) + z % 256;
    assert x / 0x1_0000 == z && x / 0x100_0000 == z / 256;
  }

  function LE32(x: nat): (b: seq<byte>)
    requires x <= MAX_UINT32
    ensures |b| == 4 && U32(b, 0) == x
  {
    Digits(x);
    [x % 256, x / 256 % 256, x / 0x1_0000 % 256, x / 0x100_0000]
  }

  function LE64(x: nat): (b: seq<byte>)
    requires x <= MAX_UINT64
    ensures |b| == 8
  {
    LE32(x % 0x1_0000_0000) + LE32(x / 0x1_0000_0000)
  }

  /** The descriptor that section 4.3.9 prescribes, with or without its signature. */
  function EncodeDescriptor(zf: Central, signed: bool): seq<byte>
    requires zf.crc <= MAX_UINT32 && zf.compressed <= MAX_UINT64 && zf.uncompressed <= MAX_UINT64
  {
    var zip64 := zf.compressed > MAX_UINT32 || zf.uncompressed > MAX_UINT32;
    (if signed then LE32(DESCRIPTOR_SIGNATURE) else []) + LE32(zf.crc) +
    (if zip64 then LE64(zf.compressed) + LE64(zf.uncompressed) else LE32(zf.compressed) + LE32(zf.uncompressed))
  }

  /** Four bytes are determined by the number they encode. */
  lemma U32Unique(a: seq<byte>, b: seq<byte>)
    requires |a| == |b| == 4 && U32(a, 0) == U32(b, 0)
    ensures a == b
  {
    assert U16(a, 0) == U16(b, 0) && U16(a, 2) == U16(b, 2);
  }

  lemma U32Iff(file: seq<byte>, at: nat, x: nat)
    requires at + 4 <= |file| && x <= MAX_UINT32
    ensures U32(file, at) == x <==> file[at..at + 4] == LE32(x)
  {
    var b := file[at..at + 4];
    assert forall i :: 0 <= i < 4 ==> b[i] == file[at + i];
    assert U32(b, 0) == U32(file, at);
    hide LE32;
    if U32(b, 0) == x { U32Unique(b, LE32(x)); }
  }

  lemma U64Iff(file: seq<byte>, at: nat, x: nat)
    requires at + 8 <= |file| && x <= MAX_UINT64
    ensures U64(file, at) == x <==> file[at..at + 8] == LE64(x)
  {
    var low, high := x % 0x1_0000_0000, x / 0x1_0000_0000;
    U32Iff(file, at, low);
    U32Iff(file, at + 4, high);
    hide U32, LE32;
    var b := file[at..at + 8];
    assert b[..4] == file[at..at + 4] && b[4..] == file[at + 4..at + 8] && b == b[..4] + b[4..];
    assert LE64(x)[..4] == LE32(low) && LE64(x)[4..] == LE32(high);
  }

  predicate Zip64(zf: Central) { zf.compressed > MAX_UINT32 || zf.uncompressed > MAX_UINT32 }

  /** The bytes of d from `at` on. */
  predicate There(file: seq<byte>, at: nat, d: seq<byte>) {
    at + |d| <= |file| && file[at..at + |d|] == d
  }

  lemma ThereTwo(file: seq<byte>, at: nat, a: seq<byte>, b: seq<byte>)
    ensures There(file, at, a + b) <==> There(file, at, a) && There(file, at + |a|, b)
  {
    if at + |a + b| <= |file| {
      var d := file[at..at + |a + b|];
      assert d[..|a|] == file[at..at + |a|] && d[|a|..] == file[at + |a|..at + |a| + |b|] && d == d[..|a|] + d[|a|..];
      assert (a + b)[..|a|] == a && (a + b)[|a|..] == b;
    }
  }

  /** When the sizes and the checksum of a prescribed descriptor are at `at`. */
  lemma FieldsThere(file: seq<byte>, at: nat, zf: Central)
    requires zf.crc <= MAX_UINT32 && zf.compressed <= MAX_UINT64 && zf.uncompressed <= MAX_UINT64
    ensures |EncodeDescriptor(zf, false)| == if Zip64(zf) then 20 else 12
    ensures There(file, at, EncodeDescriptor(zf, false)) <==>
      && at + |EncodeDescriptor(zf, false)| <= |file| && U32(file, at) == zf.crc
      && if Zip64(zf) then U64(file, at + 4) == zf.compressed && U64(file, at + 12) == zf.uncompressed
         else U32(file, at + 4) == zf.compressed && U32(file, at + 8) == zf.uncompressed
  {
    hide U32, U64, LE32, LE64;
    var crc, d := LE32(zf.crc), EncodeDescriptor(zf, false);
    var first := if Zip64(zf) then LE64(zf.compressed) else LE32(zf.compressed);
    var second := if Zip64(zf) then LE64(zf.uncompressed) else LE32(zf.uncompressed);
    assert d == crc + (first + second);
    ThereTwo(file, at, crc, first + second);
    ThereTwo(file, at + 4, first, second);
    if at + |d| <= |file| {
      U32Iff(file, at, zf.crc);
      if Zip64(zf) {
        U64Iff(file, at + 4, zf.compressed);
        U64Iff(file, at + 12, zf.uncompressed);
      } else {
        U32Iff(file, at + 4, zf.compressed);
        U32Iff(file, at + 8, zf.uncompressed);
      }
    }
  }

  lemma SignedThere(file: seq<byte>, at: nat, zf: Central)
    requires zf.crc <= MAX_UINT32 && zf.compressed <= MAX_UINT64 && zf.uncompressed <= MAX_UINT64
    ensures |EncodeDescriptor(zf, true)| == 4 + |EncodeDescriptor(zf, false)|
    ensures There(file, at, EncodeDescriptor(zf, true)) <==>
      at + 4 <= |file| && U32(file, at) == DESCRIPTOR_SIGNATURE && There(file, at + 4, EncodeDescriptor(zf, false))
  {
    hide U32, LE32, LE64, There;
    var sign, d := LE32(DESCRIPTOR_SIGNATURE), EncodeDescriptor(zf, false);
    assert EncodeDescriptor(zf, true) == sign + d;
    ThereTwo(file, at, sign, d);
    if at + 4 <= |file| { U32Iff(file, at, DESCRIPTOR_SIGNATURE); }
    assert There(file, at, sign) <==> at + 4 <= |file| && file[at..at + 4] == sign by { ThereIs(file, at, sign); }
  }

  lemma ThereIs(file: seq<byte>, at: nat, d: seq<byte>)
    ensures There(file, at, d) <==> at + |d| <= |file| && file[at..at + |d|] == d
  {
  }

  /** What is recognised is exactly what section 4.3.9 prescribes: a descriptor with its
      signature or, unless its checksum looks like one, without. */
  lemma DescriptorRecognised(file: seq<byte>, at: nat, zf: Central)
    requires zf.crc <= MAX_UINT32 && zf.compressed <= MAX_UINT64 && zf.uncompressed <= MAX_UINT64 && at <= |file|
    ensures var signed, plain := EncodeDescriptor(zf, true), EncodeDescriptor(zf, false);
      Descriptor(file, at, zf) ==
        if There(file, at, signed) then Some(|signed|)
        else if There(file, at, plain) && zf.crc != DESCRIPTOR_SIGNATURE then Some(|plain|)
        else None
  {
    SignedThere(file, at, zf);
    FieldsThere(file, at, zf);
    FieldsThere(file, at + 4, zf);
    hide U32, U64, EncodeDescriptor, There;
  }

  /** What a valid entry occupies: from its only local header to the end of its data or descriptor. */
  ghost predicate Occupies(file: seq<byte>, offset: nat, zf: Central, r: Range)
    requires 30 <= offset <= |file|
  {
    && 0 <= r.start && HeaderAt(file, r.start, offset)
    && (forall q :: HeaderAt(file, q, offset) ==> q == r.start)
    && file[r.start + 30..r.start + 30 + U16(file, r.start + 26)] == zf.name
    && U16(file, r.start + 6) == zf.flags && U16(file, r.start + 8) == zf.compression
    && offset + zf.compressed <= |file|
    && r.end == offset + zf.compressed + (
         if zf.flags / 8 % 2 == 0 then 0
         else
           var length := Descriptor(file, offset + zf.compressed, zf);
           if length.Some? then length.value else 0)
  }

  /** The sizes and checksum in the local header, or the blanks that a descriptor requires. */
  predicate SizesMatch(file: seq<byte>, p: nat, offset: nat, zf: Central)
    requires 30 <= offset <= |file| && HeaderAt(file, p, offset)
  {
    if zf.flags / 8 % 2 == 0 then
      U32(file, p + 14) == zf.crc && U32(file, p + 18) == zf.compressed && U32(file, p + 22) == zf.uncompressed
    else
      && U32(file, p + 14) == 0 && U32(file, p + 18) in {0, MAX_UINT32} && U32(file, p + 22) in {0, MAX_UINT32}
      && offset + zf.compressed <= |file| && Descriptor(file, offset + zf.compressed, zf).Some?
  }

  /** `validateLocalHeader`, given where the data begins. */
  method ValidateLocalHeader(file: seq<byte>, offset: int, zf: Central) returns (r: Option<Range>)
    ensures r.Some? ==>
        30 <= offset <= |file| && Occupies(file, offset, zf, r.value) && SizesMatch(file, r.value.start, offset, zf)
    ensures r.Some? ==> r.value.start + 30 <= offset <= r.value.end <= |file|
    ensures r.None? && 30 <= offset <= |file| ==>
      forall x :: Occupies(file, offset, zf, x) ==> !SizesMatch(file, x.start, offset, zf)
  {
    hide U16, U32, Descriptor;
    if offset < 30 || offset > |file| || |file| - offset < zf.compressed { return None; }
    var start := FindLocalHeader(file, offset);
    if start.None? { return None; }
    var p := start.value;
    if file[p + 30..p + 30 + U16(file, p + 26)] != zf.name { return None; }
    if U16(file, p + 6) != zf.flags || U16(file, p + 8) != zf.compression { return None; }
    var end := offset + zf.compressed;
    if zf.flags / 8 % 2 == 0 {
      if U32(file, p + 14) != zf.crc || U32(file, p + 18) != zf.compressed || U32(file, p + 22) != zf.uncompressed {
        return None;
      }
    } else {
      if U32(file, p + 14) != 0 || U32(file, p + 18) !in {0, MAX_UINT32} || U32(file, p + 22) !in {0, MAX_UINT32} {
        return None;
      }
      var length := Descriptor(file, end, zf);
      if length.None? { return None; }
      end := end + length.value;
    }
    r := Some(Range(p, end));
  }
}

/** Bytes, little-endian words and patches of a byte buffer, as Python's struct module and
    bytearray slices provide them to the image generator. */
module SiiBytes {
  type byte = b: int | 0 <= b < 0x100

  function U16(v: nat): (r: seq<byte>)
    requires v < 0x1_0000
    ensures |r| == 2
  {
    [v % 0x100, v / 0x100]
  }

  function U32(v: nat): (r: seq<byte>)
    requires v < 0x1_0000_0000
    ensures |r| == 4
  {
    U16(v % 0x1_0000) + U16(v / 0x1_0000)
  }

  function ReadU16(data: seq<byte>, offset: nat): (v: nat)
    requires offset + 2 <= |data|
    ensures v < 0x1_0000
  {
    (data[offset] as int) + 0x100 * (data[offset + 1] as int)
  }

  function ReadU32(data: seq<byte>, offset: nat): (v: nat)
    requires offset + 4 <= |data|
    ensures v < 0x1_0000_0000
  {
    ReadU16(data, offset) + 0x1_0000 * ReadU16(data, offset + 2)
  }

  /** The lowest byte comes first. */
  function Value(bytes: seq<byte>): nat { if bytes == [] then 0 else bytes[0] as int + 0x100 * Value(bytes[1..]) }

  lemma LittleEndian(v: nat)
    requires v < 0x1_0000_0000
    ensures v < 0x1_0000 ==> Value(U16(v)) == v
    ensures Value(U32(v)) == v
  {
    if v < 0x1_0000 { ValueOfTwo(U16(v)); }
    var b := U32(v);
    assert b[..2] == U16(v % 0x1_0000) && b[2..] == U16(v / 0x1_0000);
    ValueOfTwo(U16(v / 0x1_0000));
    assert b[1..][1..] == b[2..];
    assert Value(b) == b[0] as int + 0x100 * (b[1] as int + 0x100 * Value(b[2..]));
  }

  lemma ValueOfTwo(bytes: seq<byte>)
    requires |bytes| == 2
    ensures Value(bytes) == (bytes[0] as int) + 0x100 * (bytes[1] as int)
  {
    var rest := bytes[1..];
    assert rest[0] == bytes[1] && rest[1..] == [];
    assert Value(rest) == rest[0] as int + 0x100 * Value(rest[1..]);
    assert Value([]) == 0;
  }

  /** The part of data that starts at offset is part. */
  predicate At(data: seq<byte>, offset: nat, part: seq<byte>) {
    offset + |part| <= |data| && data[offset..offset + |part|] == part
  }

  lemma ReadWritten16(data: seq<byte>, offset: nat, v: nat)
    requires v < 0x1_0000 && At(data, offset, U16(v))
    ensures ReadU16(data, offset) == v
  {
    assert data[offset] == data[offset..offset + 2][0] && data[offset + 1] == data[offset..offset + 2][1];
  }

  lemma AtSplit(data: seq<byte>, offset: nat, a: seq<byte>, b: seq<byte>)
    ensures At(data, offset, a + b) <==> At(data, offset, a) && At(data, offset + |a|, b)
  {
    if offset + |a| + |b| <= |data| {
      var whole := data[offset..offset + |a| + |b|];
      assert whole[..|a|] == data[offset..offset + |a|];
      assert whole[|a|..] == data[offset + |a|..offset + |a| + |b|];
      assert (a + b)[..|a|] == a && (a + b)[|a|..] == b;
      assert whole == whole[..|a|] + whole[|a|..];
    }
  }

  lemma ReadWritten32(data: seq<byte>, offset: nat, v: nat)
    requires v < 0x1_0000_0000 && At(data, offset, U32(v))
    ensures ReadU32(data, offset) == v
  {
    AtSplit(data, offset, U16(v % 0x1_0000), U16(v / 0x1_0000));
    ReadWritten16(data, offset, v % 0x1_0000);
    ReadWritten16(data, offset + 2, v / 0x1_0000);
  }

  /** Overwrites the bytes from offset on; the patch lies inside the buffer. */
  function Patch(buf: seq<byte>, offset: nat, part: seq<byte>): (r: seq<byte>)
    requires offset + |part| <= |buf|
    ensures |r| == |buf| && At(r, offset, part)
    ensures r[..offset] == buf[..offset] && r[offset + |part|..] == buf[offset + |part|..]
  {
    buf[..offset] + part + buf[offset + |part|..]
  }

  function PutU16(buf: seq<byte>, offset: nat, value: int): (r: seq<byte>)
    requires offset + 2 <= |buf|
    ensures |r| == |buf|
  {
    Patch(buf, offset, U16(value % 0x1_0000))
  }

  function PutU32(buf: seq<byte>, offset: nat, value: int): (r: seq<byte>)
    requires offset + 4 <= |buf|
    ensures |r| == |buf|
  {
    Patch(buf, offset, U32(value % 0x1_0000_0000))
  }

  /** bytearray slice assignment buf[offset:offset + len(part)] = part: the buffer grows where the
      slice reaches past its end. */
  function SliceAssign(buf: seq<byte>, offset: nat, part: seq<byte>): (r: seq<byte>)
    requires offset <= |buf|
    ensures |r| == if offset + |part| <= |buf| then |buf| else offset + |part|
    ensures At(r, offset, part) && r[..offset] == buf[..offset]
  {
    if offset + |part| <= |buf| then Patch(buf, offset, part) else buf[..offset] + part
  }

  lemma SliceOfPrefix<T>(s: seq<T>, n: nat, lo: nat, hi: nat)
    requires lo <= hi <= n <= |s|
    ensures s[..n][lo..hi] == s[lo..hi]
  {
  }

  lemma PatchKeeps(buf: seq<byte>, offset: nat, part: seq<byte>, k: nat)
    requires offset + |part| <= |buf| && k < |buf| && (k < offset || offset + |part| <= k)
    ensures Patch(buf, offset, part)[k] == buf[k]
  {
  }

  lemma PatchKeepsPart(buf: seq<byte>, offset: nat, part: seq<byte>, at: nat, kept: seq<byte>)
    requires offset + |part| <= |buf| && At(buf, at, kept)
    requires at + |kept| <= offset || offset + |part| <= at
    ensures At(Patch(buf, offset, part), at, kept)
  {
    forall k | 0 <= k < |kept| ensures Patch(buf, offset, part)[at + k] == kept[k] {
      PatchKeeps(buf, offset, part, at + k);
      assert buf[at + k] == buf[at..at + |kept|][k];
    }
  }
}

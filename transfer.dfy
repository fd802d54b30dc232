/**
 * The payloads the two ends of a transfer exchange: INFO
 * (`u32 nameLength | name | u32 digestLength | digest | u32 fileSize`) and
 * REQUIRE (`u32 offset | u32 bufferSize`), written by one side and parsed by
 * the other.
 */
module Transfer {
  import opened Bytes
  import opened Wrappers
  import Utf8
  import opened Scheme

  /** `__create_info_packet`: the length field counts the name's characters, not its bytes. None stands for OverflowError. */
  function InfoPayload(name: string, digest: bytes, size: nat): (r: Option<bytes>)
    ensures r.Some? <==> |name| < TWO_32 && |digest| < TWO_32 && size < TWO_32
  {
    if |name| < TWO_32 && |digest| < TWO_32 && size < TWO_32 then
      Some(Be32(|name|) + Text(name) + Be32(|digest|) + digest + Be32(size))
    else None
  }

  /** The fields of an INFO payload, the name still as bytes. */
  datatype InfoFields = InfoFields(nameBytes: bytes, digest: bytes, size: nat)

  /**
   * The receivers' reading of an INFO payload: the fields, and the offset
   * where reading stopped. A field cut short by the end of the payload is
   * read from what is there; nothing here can fail. The name is decoded by
   * the receiver afterwards.
   */
  function ReadInfo(payload: bytes): (InfoFields, nat)
  {
    var nameSize := ReadU32(payload, 0);
    var nameEnd := INT_SIZE + nameSize;
    var digestSize := ReadU32(payload, nameEnd);
    var digestStart := nameEnd + INT_SIZE;
    var digest := Slice(payload, digestStart, digestStart + digestSize);
    var sizeStart := digestStart + digestSize;
    (InfoFields(Slice(payload, INT_SIZE, nameEnd), digest, ReadU32(payload, sizeStart)), sizeStart + INT_SIZE)
  }

  /** `u32 offset | u32 bufferSize`; None stands for OverflowError. */
  function RequirePayload(offset: nat, bufferSize: nat): (r: Option<bytes>)
    ensures r.Some? <==> offset < TWO_32 && bufferSize < TWO_32
  {
    if offset < TWO_32 && bufferSize < TWO_32 then Some(Be32(offset) + Be32(bufferSize)) else None
  }

  /** The sender's reading of a REQUIRE payload: the offset and the receiver's buffer size. */
  function ReadRequire(payload: bytes): (nat, nat)
  {
    (ReadU32(payload, 0), ReadU32(payload, INT_SIZE))
  }

  /* ---------------- round trips ---------------- */

  /** The five parts of an INFO payload, with its integer fields still as bytes, read back where they were written. */
  lemma InfoPartsAt(f1: bytes, name: bytes, f2: bytes, digest: bytes, f3: bytes)
    requires |f1| == INT_SIZE && |f2| == INT_SIZE && |f3| == INT_SIZE
    ensures var p := f1 + name + f2 + digest + f3;
      Slice(p, 0, INT_SIZE) == f1 && Slice(p, INT_SIZE, INT_SIZE + |name|) == name &&
      Slice(p, INT_SIZE + |name|, 2 * INT_SIZE + |name|) == f2 &&
      Slice(p, 2 * INT_SIZE + |name|, 2 * INT_SIZE + |name| + |digest|) == digest &&
      Slice(p, 2 * INT_SIZE + |name| + |digest|, 3 * INT_SIZE + |name| + |digest|) == f3 &&
      |p| == 3 * INT_SIZE + |name| + |digest|
  {
    var a := f1 + name;
    var b := a + f2;
    var c := b + digest;
    var p := c + f3;
    SegmentAt(c, f3);
    SegmentAt(b, digest);
    SegmentAt(a, f2);
    SegmentAt(f1, name);
    WithinPrefix(p, c, |b|, |c|);
    WithinPrefix(p, c, |a|, |b|);
    WithinPrefix(c, b, |a|, |b|);
    WithinPrefix(p, c, |f1|, |a|);
    WithinPrefix(c, b, |f1|, |a|);
    WithinPrefix(b, a, |f1|, |a|);
    WithinPrefix(p, c, 0, |f1|);
    WithinPrefix(c, b, 0, |f1|);
    WithinPrefix(b, a, 0, |f1|);
    WithinPrefix(a, f1, 0, |f1|);
  }

  /** The second part of `x + y` sits right after the first. */
  lemma SegmentAt(x: bytes, y: bytes)
    ensures (x + y)[|x|..|x| + |y|] == y && (x + y)[..|x|] == x
  {}

  /** A range of a prefix is the same range of the whole. */
  lemma WithinPrefix(s: bytes, pre: bytes, i: nat, j: nat)
    requires |pre| <= |s| && s[..|pre|] == pre && i <= j <= |pre|
    ensures s[i..j] == pre[i..j]
  {
    forall k | i <= k < j ensures s[k] == pre[k] {
      assert s[..|pre|][k] == s[k];
    }
  }

  /** The three fields of an INFO payload read back where they were written. */
  lemma InfoFieldsAt(name: bytes, digest: bytes, n: nat, d: nat, size: nat)
    requires n < TWO_32 && d < TWO_32 && size < TWO_32
    ensures var p := Be32(n) + name + Be32(d) + digest + Be32(size);
      ReadU32(p, 0) == n && Slice(p, INT_SIZE, INT_SIZE + |name|) == name &&
      ReadU32(p, INT_SIZE + |name|) == d &&
      Slice(p, 2 * INT_SIZE + |name|, 2 * INT_SIZE + |name| + |digest|) == digest &&
      ReadU32(p, 2 * INT_SIZE + |name| + |digest|) == size && |p| == 3 * INT_SIZE + |name| + |digest|
  {
    InfoPartsAt(Be32(n), name, Be32(d), digest, Be32(size));
    var p := Be32(n) + name + Be32(d) + digest + Be32(size);
    assert ReadU32(p, 0) == FromBe(Be32(n));
    assert ReadU32(p, INT_SIZE + |name|) == FromBe(Be32(d));
    assert ReadU32(p, 2 * INT_SIZE + |name| + |digest|) == FromBe(Be32(size));
    FromBeBe32(n);
    FromBeBe32(d);
    FromBeBe32(size);
  }

  /**
   * For an ASCII name, a receiver recovers exactly what the sender put in
   * INFO, the name decodes back, and reading stops at the end of the payload.
   */
  lemma InfoRoundTrip(name: string, digest: bytes, size: nat)
    requires Utf8.IsAscii(name) && InfoPayload(name, digest, size).Some?
    ensures ReadInfo(InfoPayload(name, digest, size).value)
         == (InfoFields(Text(name), digest, size), |InfoPayload(name, digest, size).value|)
    ensures Utf8.Decode(Text(name)) == Some(name)
  {
    Utf8.EncodeLength(name);
    InfoFieldsAt(Text(name), digest, |name|, |digest|, size);
    ReadInfoSteps(InfoPayload(name, digest, size).value, Text(name), digest, size);
    Utf8.DecodeEncode(name);
  }

  /** The receivers' reading of a payload, given what each field holds. */
  lemma ReadInfoSteps(payload: bytes, nameBytes: bytes, digest: bytes, size: nat)
    requires ReadU32(payload, 0) == |nameBytes| && Slice(payload, INT_SIZE, INT_SIZE + |nameBytes|) == nameBytes
    requires ReadU32(payload, INT_SIZE + |nameBytes|) == |digest|
    requires Slice(payload, 2 * INT_SIZE + |nameBytes|, 2 * INT_SIZE + |nameBytes| + |digest|) == digest
    requires ReadU32(payload, 2 * INT_SIZE + |nameBytes| + |digest|) == size
    ensures ReadInfo(payload) == (InfoFields(nameBytes, digest, size), 3 * INT_SIZE + |nameBytes| + |digest|)
  {
    var nameEnd := INT_SIZE + ReadU32(payload, 0);
    assert nameEnd == INT_SIZE + |nameBytes|;
    var digestStart := nameEnd + INT_SIZE;
    assert digestStart + ReadU32(payload, nameEnd) == 2 * INT_SIZE + |nameBytes| + |digest|;
  }

  /** The name-length field equals the number of bytes of the name exactly when the name is ASCII. */
  lemma InfoLengthField(name: string, digest: bytes, size: nat)
    requires InfoPayload(name, digest, size).Some?
    ensures ReadU32(InfoPayload(name, digest, size).value, 0) == |Text(name)| <==> Utf8.IsAscii(name)
  {
    Utf8.EncodeLength(name);
    InfoFieldsAt(Text(name), digest, |name|, |digest|, size);
  }

  /**
   * The receivers take as many bytes of the name as it has characters: the
   * whole of its encoding for an ASCII name, a prefix of it otherwise.
   */
  lemma NameBytesRead(name: string, digest: bytes, size: nat)
    requires InfoPayload(name, digest, size).Some?
    ensures ReadInfo(InfoPayload(name, digest, size).value).0.nameBytes == Text(name)[..|name|]
  {
    var t := Text(name);
    var p := Be32(|name|) + t + Be32(|digest|) + digest + Be32(size);
    assert p[INT_SIZE..INT_SIZE + |name|] == p[INT_SIZE..INT_SIZE + |t|][..|name|];
    InfoFieldsAt(t, digest, |name|, |digest|, size);
  }

  /** The name "é" is one character and two bytes: the receiver reads one byte of it, which is not UTF-8. */
  lemma NonAsciiNameUnreadable(digest: bytes, size: nat)
    requires |digest| < TWO_32 && size < TWO_32
    ensures ReadInfo(InfoPayload("é", digest, size).value).0.nameBytes == [0xC3]
    ensures Utf8.Decode([0xC3]) == None
  {
    assert Utf8.DecodeOne([0xC3]) == None;
    assert Text("é")[..1] == [0xC3];
    NameBytesRead("é", digest, size);
  }

  /** The sender reads back the offset and buffer size a receiver asked for. */
  lemma RequireRoundTrip(offset: nat, bufferSize: nat)
    requires RequirePayload(offset, bufferSize).Some?
    ensures ReadRequire(RequirePayload(offset, bufferSize).value) == (offset, bufferSize)
  {
    ReadWritten([], Be32(offset), Be32(bufferSize));
    ReadWritten(Be32(offset), Be32(bufferSize), []);
    FromBeBe32(offset);
    FromBeBe32(bufferSize);
    assert Be32(offset) + Be32(bufferSize) == [] + Be32(offset) + Be32(bufferSize);
    assert Be32(offset) + Be32(bufferSize) == Be32(offset) + Be32(bufferSize) + [];
  }

  /** The receiver reads back the offset a SEND option carries. */
  lemma OffsetRoundTrip(offset: nat)
    requires offset < TWO_32
    ensures ReadU32(U32(offset).value, 0) == offset
  {
    ReadWritten([], U32(offset).value, []);
    assert [] + U32(offset).value + [] == U32(offset).value;
  }
}

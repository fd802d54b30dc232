/**
 * UTF-8 as Python's `str.encode()` and strict `bytes.decode()` do it.
 * A Dafny `char` is a Unicode scalar value, so encoding never fails here.
 */
module Utf8 {
  import opened Bytes
  import opened Wrappers

  predicate IsScalar(cp: int) { 0 <= cp < 0xD800 || 0xE000 <= cp < 0x11_0000 }

  /** The UTF-8 bytes of one code point below 0x110000 (`chr(cp).encode()`). */
  function EncodeCodePoint(cp: int): (r: bytes)
    requires 0 <= cp < 0x11_0000
    ensures 1 <= |r| <= 4
    ensures |r| == 1 <==> cp < 0x80
  {
    if cp < 0x80 then [Byte(cp)]
    else if cp < 0x800 then [Byte(0xC0 + cp / 64), Byte(0x80 + cp % 64)]
    else if cp < 0x1_0000 then
      [Byte(0xE0 + cp / 4096), Byte(0x80 + (cp / 64) % 64), Byte(0x80 + cp % 64)]
    else
      [Byte(0xF0 + cp / 262144), Byte(0x80 + (cp / 4096) % 64),
       Byte(0x80 + (cp / 64) % 64), Byte(0x80 + cp % 64)]
  }

  /** `s.encode()`. */
  function Encode(s: string): (r: bytes)
    ensures |r| >= |s|
  {
    if s == [] then [] else EncodeCodePoint(s[0] as int) + Encode(s[1..])
  }

  predicate IsAscii(s: string) { forall i :: 0 <= i < |s| ==> s[i] as int < 0x80 }

  predicate Cont(b: byte) { 0x80 <= b as int < 0xC0 }

  /** The code point and length of the well-formed sequence at the head of `b`, if any. */
  function DecodeOne(b: bytes): (r: Option<(char, nat)>)
    ensures r.Some? ==> 1 <= r.value.1 <= |b|
  {
    if |b| == 0 then None
    else
      var b0 := b[0] as int;
      if b0 < 0x80 then Some((b0 as char, 1))
      else if 0xC2 <= b0 < 0xE0 then
        if |b| >= 2 && Cont(b[1]) then Some((((b0 - 0xC0) * 64 + (b[1] as int - 0x80)) as char, 2))
        else None
      else if 0xE0 <= b0 < 0xF0 then
        if |b| >= 3 && Cont(b[1]) && Cont(b[2])
           && (b0 != 0xE0 || b[1] as int >= 0xA0) && (b0 != 0xED || b[1] as int < 0xA0)
        then
          var cp := (b0 - 0xE0) * 4096 + (b[1] as int - 0x80) * 64 + (b[2] as int - 0x80);
          Some((cp as char, 3))
        else None
      else if 0xF0 <= b0 < 0xF5 then
        if |b| >= 4 && Cont(b[1]) && Cont(b[2]) && Cont(b[3])
           && (b0 != 0xF0 || b[1] as int >= 0x90) && (b0 != 0xF4 || b[1] as int < 0x90)
        then
          var cp := (b0 - 0xF0) * 262144 + (b[1] as int - 0x80) * 4096
                    + (b[2] as int - 0x80) * 64 + (b[3] as int - 0x80);
          Some((cp as char, 4))
        else None
      else None
  }

  /** `b.decode()`; None stands for UnicodeDecodeError. */
  function Decode(b: bytes): Option<string>
    decreases |b|
  {
    if b == [] then Some("")
    else
      match DecodeOne(b)
      case None => None
      case Some((c, n)) =>
        match Decode(b[n..])
        case None => None
        case Some(rest) => Some([c] + rest)
  }

  /** DecodeOne on a two-byte lead, stated on the byte values. */
  lemma DecodeOneLead2(b: bytes)
    requires |b| >= 2 && 0xC2 <= b[0] as int < 0xE0 && Cont(b[1])
    ensures DecodeOne(b) == Some((((b[0] as int - 0xC0) * 64 + (b[1] as int - 0x80)) as char, 2))
  {}

  lemma DecodeOne2(cp: int, rest: bytes)
    requires 0x80 <= cp < 0x800
    ensures DecodeOne(EncodeCodePoint(cp) + rest) == Some((cp as char, 2))
  {
    var b := EncodeCodePoint(cp) + rest;
    assert b[0] as int == 0xC0 + cp / 64 && b[1] as int == 0x80 + cp % 64;
    assert (b[0] as int - 0xC0) * 64 + (b[1] as int - 0x80) == cp;
    DecodeOneLead2(b);
  }

  lemma Digits3(cp: int)
    requires 0x800 <= cp < 0x1_0000 && IsScalar(cp)
    ensures var b0, b1, b2 := cp / 4096, (cp / 64) % 64, cp % 64;
      b0 < 16 && b1 < 64 && b2 < 64 && b0 * 4096 + b1 * 64 + b2 == cp
      && (b0 == 0 ==> b1 >= 0x20) && (b0 == 0xD ==> b1 < 0x20)
  {}

  /** A well-formed three-byte sequence, as DecodeOne checks it. */
  predicate Lead3(e: bytes)
  {
    |e| == 3 && 0xE0 <= e[0] as int < 0xF0 && Cont(e[1]) && Cont(e[2]) &&
    (e[0] as int != 0xE0 || e[1] as int >= 0xA0) && (e[0] as int != 0xED || e[1] as int < 0xA0)
  }

  /** The code point a three-byte sequence stands for. */
  function Weight3(e: bytes): int
    requires |e| == 3
  {
    (e[0] as int - 0xE0) * 4096 + (e[1] as int - 0x80) * 64 + (e[2] as int - 0x80)
  }

  /** The three bytes of a code point from U+0800 on are well formed and weigh the code point. */
  lemma Encoded3(cp: int)
    requires 0x800 <= cp < 0x1_0000 && IsScalar(cp)
    ensures Lead3(EncodeCodePoint(cp)) && Weight3(EncodeCodePoint(cp)) == cp
  {
    Digits3(cp);
  }

  lemma DecodeOneLead3(e: bytes, rest: bytes)
    requires Lead3(e)
    ensures DecodeOne(e + rest) == Some((Weight3(e) as char, 3))
  {
    var b := e + rest;
    assert b[0] == e[0] && b[1] == e[1] && b[2] == e[2];
  }

  lemma DecodeOne3(cp: int, rest: bytes)
    requires 0x800 <= cp < 0x1_0000 && IsScalar(cp)
    ensures DecodeOne(EncodeCodePoint(cp) + rest) == Some((cp as char, 3))
  {
    Encoded3(cp);
    DecodeOneLead3(EncodeCodePoint(cp), rest);
  }

  lemma Digits4(cp: int)
    requires 0x1_0000 <= cp < 0x11_0000
    ensures var b0, b1, b2, b3 := cp / 262144, (cp / 4096) % 64, (cp / 64) % 64, cp % 64;
      b0 < 5 && b1 < 64 && b2 < 64 && b3 < 64 && b0 * 262144 + b1 * 4096 + b2 * 64 + b3 == cp
      && (b0 == 0 ==> b1 >= 0x10) && (b0 == 4 ==> b1 < 0x10)
  {}

  /** A well-formed four-byte sequence, as DecodeOne checks it. */
  predicate Lead4(e: bytes)
  {
    |e| == 4 && 0xF0 <= e[0] as int < 0xF5 && Cont(e[1]) && Cont(e[2]) && Cont(e[3]) &&
    (e[0] as int != 0xF0 || e[1] as int >= 0x90) && (e[0] as int != 0xF4 || e[1] as int < 0x90)
  }

  /** The code point a four-byte sequence stands for. */
  function Weight4(e: bytes): int
    requires |e| == 4
  {
    (e[0] as int - 0xF0) * 262144 + (e[1] as int - 0x80) * 4096 + (e[2] as int - 0x80) * 64 + (e[3] as int - 0x80)
  }

  /** The four bytes of a code point from U+10000 on are well formed and weigh the code point. */
  lemma Encoded4(cp: int)
    requires 0x1_0000 <= cp < 0x11_0000
    ensures Lead4(EncodeCodePoint(cp)) && Weight4(EncodeCodePoint(cp)) == cp
  {
    Digits4(cp);
  }

  lemma DecodeOneLead4(e: bytes, rest: bytes)
    requires Lead4(e)
    ensures DecodeOne(e + rest) == Some((Weight4(e) as char, 4))
  {
    var b := e + rest;
    assert b[0] == e[0] && b[1] == e[1] && b[2] == e[2] && b[3] == e[3];
  }

  lemma DecodeOne4(cp: int, rest: bytes)
    requires 0x1_0000 <= cp < 0x11_0000
    ensures DecodeOne(EncodeCodePoint(cp) + rest) == Some((cp as char, 4))
  {
    Encoded4(cp);
    DecodeOneLead4(EncodeCodePoint(cp), rest);
  }

  lemma {:induction false} DecodeOneEncode(c: char, rest: bytes)
    ensures DecodeOne(EncodeCodePoint(c as int) + rest) == Some((c, |EncodeCodePoint(c as int)|))
  {
    var cp := c as int;
    if cp < 0x80 {
    } else if cp < 0x800 {
      DecodeOne2(cp, rest);
    } else if cp < 0x1_0000 {
      DecodeOne3(cp, rest);
    } else {
      DecodeOne4(cp, rest);
    }
  }

  /** Strict decoding inverts encoding. */
  lemma {:induction false} DecodeEncode(s: string)
    ensures Decode(Encode(s)) == Some(s)
    decreases |s|
  {
    if s != [] {
      var e := EncodeCodePoint(s[0] as int);
      var tail := Encode(s[1..]);
      DecodeOneEncode(s[0], tail);
      assert (e + tail)[|e|..] == tail;
      DecodeEncode(s[1..]);
      assert [s[0]] + s[1..] == s;
    }
  }

  /** ASCII text encodes to one byte per character, anything else to more bytes than characters. */
  lemma {:induction false} EncodeLength(s: string)
    ensures IsAscii(s) <==> |Encode(s)| == |s|
    decreases |s|
  {
    if s != [] {
      EncodeLength(s[1..]);
      assert IsAscii(s) <==> s[0] as int < 0x80 && IsAscii(s[1..]) by {
        if s[0] as int < 0x80 && IsAscii(s[1..]) {
          forall i | 0 <= i < |s| ensures s[i] as int < 0x80 {
            if i > 0 { assert s[i] == s[1..][i - 1]; }
          }
        }
      }
    }
  }

  /** Each ASCII character is the byte of its code. */
  lemma {:induction false} EncodeAscii(s: string)
    requires IsAscii(s)
    ensures |Encode(s)| == |s|
    ensures forall i :: 0 <= i < |s| ==> Encode(s)[i] as int == s[i] as int
    decreases |s|
  {
    if s != [] {
      assert IsAscii(s[1..]) by {
        forall i | 0 <= i < |s[1..]| ensures s[1..][i] as int < 0x80 { assert s[1..][i] == s[i + 1]; }
      }
      EncodeAscii(s[1..]);
    }
  }
}

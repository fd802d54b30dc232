/** Bytes, big-endian integer fields and Python-style slicing. */
module Bytes {

  type byte = bv8
  type bytes = seq<byte>

  const TWO_16: nat := 0x1_0000
  const TWO_32: nat := 0x1_0000_0000

  /** A small natural number as one byte (Python's `struct.pack(">B", n)`). */
  function Byte(n: int): (b: byte)
    requires 0 <= n < 256
    ensures b as int == n
  {
    ByteValue(n);
    n as bv8
  }

  /** Converting a number below 256 to a byte loses nothing. */
  lemma ByteValue(n: int)
    requires 0 <= n < 256
    ensures (n as bv8) as int == n
  {
    var b := CountUp(n);
    assert (b as int) as bv8 == b;
  }

  /** The byte reached by counting up from zero `n` times. */
  lemma {:induction false} CountUp(n: int) returns (b: byte)
    requires 0 <= n < 256
    ensures b as int == n
  {
    if n == 0 {
      b := 0;
    } else {
      var a := CountUp(n - 1);
      b := a + 1;
    }
  }

  /** `struct.pack(">H", n)` / `n.to_bytes(2, "big")`. */
  function Be16(n: nat): (r: bytes)
    requires n < TWO_16
    ensures |r| == 2
  {
    [Byte(n / 256), Byte(n % 256)]
  }

  /** `struct.pack(">I", n)` / `n.to_bytes(4, "big")`. */
  function Be32(n: nat): (r: bytes)
    requires n < TWO_32
    ensures |r| == 4
  {
    Be16(n / TWO_16) + Be16(n % TWO_16)
  }

  /** `int.from_bytes(s, "big")`: any length, the empty sequence gives 0. */
  function FromBe(s: bytes): nat
  {
    if s == [] then 0 else FromBe(s[..|s| - 1]) * 256 + s[|s| - 1] as int
  }

  lemma FromBe2(s: bytes)
    requires |s| == 2
    ensures FromBe(s) == s[0] as int * 256 + s[1] as int
  {
    var a := s[..1];
    assert a[..0] == [];
    assert FromBe(a) == FromBe(a[..0]) * 256 + a[0] as int;
  }

  lemma FromBe4(s: bytes)
    requires |s| == 4
    ensures FromBe(s) == FromBe(s[..2]) * TWO_16 + FromBe(s[2..])
  {
    var a, b := s[..2], s[2..];
    calc {
      FromBe(s);
      FromBe(s[..3]) * 256 + s[3] as int;
      { assert s[..3][..2] == a; }
      (FromBe(a) * 256 + s[2] as int) * 256 + s[3] as int;
      { FromBe2(a); FromBe2(b); }
      FromBe(a) * TWO_16 + FromBe(b);
    }
  }

  /** Reading back a 16-bit field gives the number written. */
  lemma {:induction false} FromBeBe16(n: nat)
    requires n < TWO_16
    ensures FromBe(Be16(n)) == n
  {
    FromBe2(Be16(n));
  }

  /** Reading back a 32-bit field gives the number written. */
  lemma {:induction false} FromBeBe32(n: nat)
    requires n < TWO_32
    ensures FromBe(Be32(n)) == n
  {
    var s := Be32(n);
    assert s[..2] == Be16(n / TWO_16) && s[2..] == Be16(n % TWO_16);
    FromBe4(s);
    FromBeBe16(n / TWO_16);
    FromBeBe16(n % TWO_16);
  }

  /** A 4-byte field always decodes below 2^32. */
  lemma FromBeBound4(s: bytes)
    requires |s| <= 4
    ensures FromBe(s) < TWO_32
  {
    if |s| == 4 {
      FromBe4(s);
      FromBe2(s[..2]);
      FromBe2(s[2..]);
    } else if |s| == 3 {
      assert s[..2][..1][..0] == [];
      FromBe2(s[..2]);
    } else if |s| == 2 {
      FromBe2(s);
    } else if |s| == 1 {
      assert s[..0] == [];
    }
  }

  /** Python's `s[i:j]` for non-negative bounds: both ends are clamped to the length. */
  function Slice(s: bytes, i: nat, j: nat): (r: bytes)
    ensures |r| == if i <= j && i <= |s| then (if j <= |s| then j else |s|) - i else 0
    ensures i <= j <= |s| ==> r == s[i..j]
  {
    var hi := if j <= |s| then j else |s|;
    if i <= hi then s[i..hi] else []
  }

  /** Python's `s[i:]` for a non-negative start. */
  function From(s: bytes, i: nat): (r: bytes)
    ensures i <= |s| ==> r == s[i..]
    ensures i > |s| ==> r == []
  {
    if i <= |s| then s[i..] else []
  }

  function Xor(a: byte, b: byte): byte { a ^ b }

  lemma XorInvolution(a: byte, b: byte)
    ensures Xor(Xor(a, b), b) == a
  {}

  /** `min` on naturals. */
  function Min(a: nat, b: nat): (m: nat)
    ensures m <= a && m <= b && (m == a || m == b)
  {
    if a <= b then a else b
  }
}

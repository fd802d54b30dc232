/** What the ciphers guarantee, and where the XOR cipher's encoding breaks its own round trip. */
module CipherLaws {
  import opened Bytes
  import opened Wrappers
  import Utf8
  import opened CipherSuite

  /* ---------------- XorCipher ---------------- */

  /** The byte `c` masked with key and IV is below 128, so it encodes as one byte. */
  predicate Masked(key: byte, iv: byte, c: byte)
  {
    XorByte(key, iv, c) as int < 0x80
  }

  /** Every byte of `p` becomes one character below 128. */
  predicate Narrow(key: byte, iv: byte, p: bytes)
  {
    forall i :: 0 <= i < |p| ==> Masked(key, iv, p[i])
  }

  /** The byte-for-byte XOR, which XorBytes is on narrow input. */
  function XorEach(key: byte, iv: byte, p: bytes): (r: bytes)
    ensures |r| == |p|
  {
    seq(|p|, i requires 0 <= i < |p| => XorByte(key, iv, p[i]))
  }

  lemma SingleByte(x: byte)
    requires x as int < 0x80
    ensures Utf8.EncodeCodePoint(x as int) == [x]
  {
    assert Byte(x as int) as int == x as int;
  }

  lemma {:induction false} XorBytesAppend(key: byte, iv: byte, a: bytes, b: bytes)
    ensures XorBytes(key, iv, a + b) == XorBytes(key, iv, a) + XorBytes(key, iv, b)
    decreases |b|
  {
    if b == [] {
      assert a + b == a;
    } else {
      var b' := b[..|b| - 1];
      assert (a + b)[..|a + b| - 1] == a + b';
      assert (a + b)[|a + b| - 1] == b[|b| - 1];
      XorBytesAppend(key, iv, a, b');
    }
  }

  /** The transform never shrinks, and keeps the length exactly when every character is narrow. */
  lemma {:induction false} XorBytesLength(key: byte, iv: byte, p: bytes)
    ensures |XorBytes(key, iv, p)| >= |p|
    ensures |XorBytes(key, iv, p)| == |p| <==> Narrow(key, iv, p)
    decreases |p|
  {
    if p != [] {
      var q := p[..|p| - 1];
      NarrowSnoc(key, iv, p);
      XorBytesLength(key, iv, q);
    }
  }

  /** A sequence is narrow exactly when all of it but its last byte is, and that one is too. */
  lemma NarrowSnoc(key: byte, iv: byte, p: bytes)
    requires p != []
    ensures Narrow(key, iv, p) <==> Narrow(key, iv, p[..|p| - 1]) && Masked(key, iv, p[|p| - 1])
  {
    var q := p[..|p| - 1];
    if Narrow(key, iv, q) && Masked(key, iv, p[|p| - 1]) {
      forall i | 0 <= i < |p| ensures Masked(key, iv, p[i]) {
        if i < |q| { assert p[i] == q[i]; }
      }
    }
    if Narrow(key, iv, p) {
      forall i | 0 <= i < |q| ensures Masked(key, iv, q[i]) {
        assert q[i] == p[i];
      }
    }
  }

  lemma {:induction false} XorBytesNarrow(key: byte, iv: byte, p: bytes)
    requires Narrow(key, iv, p)
    ensures XorBytes(key, iv, p) == XorEach(key, iv, p)
    decreases |p|
  {
    if p != [] {
      var q := p[..|p| - 1];
      XorEachSnoc(key, iv, p);
      NarrowSnoc(key, iv, p);
      XorBytesNarrow(key, iv, q);
      SingleByte(XorByte(key, iv, p[|p| - 1]));
    }
  }

  lemma XorEachSnoc(key: byte, iv: byte, p: bytes)
    requires p != []
    ensures XorEach(key, iv, p) == XorEach(key, iv, p[..|p| - 1]) + [XorByte(key, iv, p[|p| - 1])]
  {}

  /** The plaintexts XorCipher gets back: every byte and every masked byte below 128. */
  predicate XorInvertible(key: byte, iv: byte, p: bytes)
  {
    Narrow(key, iv, p) && forall i :: 0 <= i < |p| ==> p[i] as int < 0x80
  }

  /**
   * Decrypting XorCipher's output gives the plaintext back exactly when no
   * byte and no masked byte reaches 128; otherwise `chr(...).encode()` has
   * made a two-byte character and the round trip fails.
   */
  lemma {:induction false} XorRoundTrip(key: byte, iv: byte, p: bytes)
    ensures XorBytes(key, iv, XorBytes(key, iv, p)) == p <==> XorInvertible(key, iv, p)
  {
    if XorInvertible(key, iv, p) {
      XorRoundTripBack(key, iv, p);
    }
    if XorBytes(key, iv, XorBytes(key, iv, p)) == p {
      XorRoundTripForth(key, iv, p);
    }
  }

  lemma MaskTwice(key: byte, iv: byte, c: byte)
    ensures XorByte(key, iv, XorByte(key, iv, c)) == c
  {}

  lemma {:induction false} XorRoundTripBack(key: byte, iv: byte, p: bytes)
    requires XorInvertible(key, iv, p)
    ensures XorBytes(key, iv, XorBytes(key, iv, p)) == p
  {
    XorBytesNarrow(key, iv, p);
    var e := XorEach(key, iv, p);
    assert Narrow(key, iv, e) by {
      forall i | 0 <= i < |e| ensures XorByte(key, iv, e[i]) as int < 0x80 { MaskTwice(key, iv, p[i]); }
    }
    XorBytesNarrow(key, iv, e);
    forall i | 0 <= i < |p| ensures XorEach(key, iv, e)[i] == p[i] { MaskTwice(key, iv, p[i]); }
  }

  lemma {:induction false} XorRoundTripForth(key: byte, iv: byte, p: bytes)
    requires XorBytes(key, iv, XorBytes(key, iv, p)) == p
    ensures XorInvertible(key, iv, p)
  {
    var e := XorBytes(key, iv, p);
    XorBytesLength(key, iv, p);
    XorBytesLength(key, iv, e);
    assert Narrow(key, iv, p) && Narrow(key, iv, e);
    XorBytesNarrow(key, iv, p);
    forall i | 0 <= i < |p| ensures p[i] as int < 0x80 {
      MaskTwice(key, iv, p[i]);
      assert XorByte(key, iv, e[i]) == p[i];
    }
  }

  /** One byte that does not survive: 0x80 with key and IV zero. */
  lemma XorNonAsciiFails()
    ensures XorBytes(0, 0, XorBytes(0, 0, [0x80])) != [0x80]
  {
    XorRoundTrip(0, 0, [0x80]);
    assert !XorInvertible(0, 0, [0x80]);
  }

  /** The same at the level of the cipher object: encrypt, then decrypt with the same IV. */
  lemma XorCipherRoundTrip(key: byte, iv: byte, p: bytes)
    ensures var c := XorCipher(key, Some(iv));
      Encrypt(c, p).result.Ok? &&
      (Decrypt(Encrypt(c, p).after, Encrypt(c, p).result.value).result == Ok(p) <==> XorInvertible(key, iv, p))
  {
    XorRoundTrip(key, iv, p);
  }

  /* ---------------- parameters ---------------- */

  /**
   * `set_param` succeeds exactly for index 0 and a value of the cipher's
   * parameter length, on a key CTR mode accepts when the cipher is AES_CTR.
   */
  lemma {:induction false} SetParamAccepts(c: Cipher, index: nat, value: bytes)
    ensures SetParam(c, index, value).Ok? <==>
      !Innermost(c).NoCipher? && index == 0 && |value| == RandomLength(c) &&
      (Innermost(c).AesCtr? ==> CtrKeyLength(|Innermost(c).aesKey|))
    decreases c
  {
    if c.SimpleSsl? {
      SetParamAccepts(c.inner, index, value);
    }
  }

  /** A parameter reads back as set. */
  lemma {:induction false} GetSetParam(c: Cipher, index: nat, value: bytes)
    requires SetParam(c, index, value).Ok?
    ensures GetParam(SetParam(c, index, value).value, index) == Ok(value)
    decreases c
  {
    if c.SimpleSsl? {
      GetSetParam(c.inner, index, value);
    } else if c.XorCipher? {
      assert [value[0]] == value;
    }
  }

  /**
   * NoCipher sends the message as it is: both transforms are the identity,
   * it has no parameter to read or set, a new key changes nothing and
   * `reset_key` and `reset_params` both report True.
   */
  lemma NoCipherLaws(p: bytes, index: nat, value: bytes, newkey: bytes)
    ensures Encrypt(NoCipher, p) == Outcome(Ok(p), NoCipher)
    ensures Decrypt(NoCipher, p) == Outcome(Ok(p), NoCipher)
    ensures GetParam(NoCipher, index) == Err(InvalidArgument("Index exceeds (NoCipher doesn't use any parameters"))
    ensures SetParam(NoCipher, index, value) == Err(InvalidArgument("Index exceeds (NoCipher doesn't use any parameters"))
    ensures ResetKey(NoCipher, newkey) == Ok(NoCipher) && ResetKeyFlag(NoCipher)
    ensures ResetParams(NoCipher, []) == (Ok(true), NoCipher)
  {}

  /** `reset_key` reports True exactly when the cipher under the SimpleSSL wrappers is NoCipher. */
  lemma {:induction false} ResetKeyFlagInnermost(c: Cipher)
    ensures ResetKeyFlag(c) <==> Innermost(c).NoCipher?
  {
    if c.SimpleSsl? {
      ResetKeyFlagInnermost(c.inner);
    }
  }

  /** A freshly built XorCipher or AES_CTR has no parameter to read yet. */
  lemma FreshHasNoParam(key: bytes, aes: Keystream)
    ensures NewXorCipher(key).Ok? ==> GetParam(NewXorCipher(key).value, 0) == Err(AttributeError)
    ensures NewAesCtr(key, aes).Ok? ==> GetParam(NewAesCtr(key, aes).value, 0) == Err(AttributeError)
  {}

  /**
   * `reset_params` installs the random bytes as the parameter, even when
   * AES_CTR's refused key makes it raise after storing the nonce.
   */
  lemma {:induction false} ResetParamsSets(c: Cipher, random: bytes)
    requires |random| == RandomLength(c) && !Innermost(c).NoCipher?
    ensures GetParam(ResetParams(c, random).1, 0) == Ok(random)
    decreases c
  {
    if c.SimpleSsl? {
      ResetParamsSets(c.inner, random);
    } else if SetParam(c, 0, random).Ok? {
      GetSetParam(c, 0, random);
    }
  }

  /* ---------------- AES_CTR ---------------- */

  /** CTR mode is its own inverse under the same key and nonce. */
  lemma CtrInvolution(aes: Keystream, key: bytes, nonce: bytes, p: bytes)
    ensures CtrApply(aes, key, nonce, CtrApply(aes, key, nonce, p)) == p
  {
    var e := CtrApply(aes, key, nonce, p);
    forall i | 0 <= i < |p| ensures CtrApply(aes, key, nonce, e)[i] == p[i] {
      XorInvolution(p[i], aes(key, nonce, i));
    }
  }

  /**
   * One nonce, one message: a second encryption fails until a new nonce is
   * set, which succeeds exactly when CTR mode accepts the current key.
   */
  lemma {:induction false} NonceSingleUse(c: Cipher, p: bytes, q: bytes)
    requires c.AesCtr? && Encrypt(c, p).result.Ok?
    ensures Encrypt(Encrypt(c, p).after, q).result == Err(EncryptFailed("Don't reuse nonce value again"))
    ensures forall n :: |n| == 16 ==>
      (SetParam(Encrypt(c, p).after, 0, n).Ok? <==> CtrKeyLength(|c.aesKey|)) &&
      (CtrKeyLength(|c.aesKey|) ==> Encrypt(SetParam(Encrypt(c, p).after, 0, n).value, q).result.Ok?)
  {}

  /**
   * A 512-bit key passes `AES_CTR`'s own check, but CTR mode refuses it: the
   * nonce is stored, `set_param` raises ValueError, and encryption still has
   * no context.
   */
  lemma WideKeyRefused(key: bytes, aes: Keystream, nonce: bytes, p: bytes)
    requires |key| == 64 && |nonce| == 16
    ensures NewAesCtr(key, aes).Ok?
    ensures var c := NewAesCtr(key, aes).value;
      SetParam(c, 0, nonce) == Err(ValueError("Only 128, 192, and 256 bit keys are allowed for this AES mode")) &&
      GetParam(FailedSetParam(c, 0, nonce), 0) == Ok(nonce) &&
      Encrypt(FailedSetParam(c, 0, nonce), p).result == Err(EncryptFailed("Nonce has not been set yet")) &&
      ResetParams(c, nonce).0.Err?
  {}

  /** Encryption needs a nonce first. */
  lemma NoNonceNoEncryption(key: bytes, aes: Keystream, p: bytes)
    requires NewAesCtr(key, aes).Ok?
    ensures Encrypt(NewAesCtr(key, aes).value, p).result == Err(EncryptFailed("Nonce has not been set yet"))
    ensures Decrypt(NewAesCtr(key, aes).value, p).result == Err(EncryptFailed("Nonce has not been set yet"))
  {}

  /**
   * Encrypting, then decrypting with the same key after setting the same
   * nonce, gives the plaintext, for every key CTR mode accepts.
   */
  lemma {:induction false} AesRoundTrip(key: bytes, aes: Keystream, nonce: bytes, p: bytes)
    requires |key| in {16, 24, 32} && |nonce| == 16
    ensures NewAesCtr(key, aes).Ok? && SetParam(NewAesCtr(key, aes).value, 0, nonce).Ok?
    ensures var c := SetParam(NewAesCtr(key, aes).value, 0, nonce).value;
      var o := Encrypt(c, p);
      o.result.Ok? && SetParam(o.after, 0, nonce).Ok? &&
      Decrypt(SetParam(o.after, 0, nonce).value, o.result.value).result == Ok(p)
  {
    CtrInvolution(aes, key, nonce, p);
  }

  /* ---------------- SimpleSSL ---------------- */

  lemma DropTakeLast(s: bytes, n: nat)
    requires 0 < n <= |s|
    ensures DropLast(s, n) + TakeLast(s, n) == s
  {}

  /**
   * What SimpleSSL accepts carries its own digest: the inner cipher produced
   * the message followed by the hash of the message.
   */
  lemma SslAuthenticates(inner: Cipher, h: HashFunction, n: nat, ct: bytes, m: bytes)
    requires Decrypt(SimpleSsl(inner, h, n), ct).result == Ok(m)
    ensures Decrypt(inner, ct).result == Ok(m + h(m))
  {
    var a := Decrypt(inner, ct).result.value;
    var d := DigestLength(h);
    if d == 0 || |a| <= d {
      assert m == [] && a == h([]);
      assert m + h(m) == a;
    } else {
      DropTakeLast(a, d);
    }
  }

  /** With a zero-length digest, `s[:-0]` is empty, so SimpleSSL can only ever return b"". */
  lemma SslEmptyDigest(inner: Cipher, h: HashFunction, n: nat, ct: bytes)
    requires DigestLength(h) == 0 && Decrypt(SimpleSsl(inner, h, n), ct).result.Ok?
    ensures Decrypt(SimpleSsl(inner, h, n), ct).result == Ok([])
  {}

  /** A message with its digest attached, decrypted by the inner cipher, is accepted. */
  lemma SslAccepts(inner: Cipher, h: HashFunction, n: nat, ct: bytes, m: bytes)
    requires FixedDigest(h)
    requires Decrypt(inner, ct).result == Ok(m + h(m))
    ensures Decrypt(SimpleSsl(inner, h, n), ct).result == Ok(m)
  {
    var a := m + h(m);
    assert |h(m)| == DigestLength(h);
    assert DropLast(a, DigestLength(h)) == m;
  }

  /** Tampering that the hash notices is refused. */
  lemma SslRejects(inner: Cipher, h: HashFunction, n: nat, ct: bytes, m: bytes, forged: bytes)
    requires FixedDigest(h)
    requires Decrypt(inner, ct).result == Ok(m + forged) && |forged| == DigestLength(h) && forged != h(m)
    ensures Decrypt(SimpleSsl(inner, h, n), ct).result == Err(UnAuthenticatedPacket)
  {
    var a := m + forged;
    assert DropLast(a, DigestLength(h)) == m && TakeLast(a, DigestLength(h)) == forged;
  }

  /* ---------------- two ends of a connection ---------------- */

  /**
   * An encrypting cipher `e` and a decrypting cipher `d` of the same class and
   * key, with `e`'s parameters set, for which `p` survives the trip.
   */
  ghost predicate Partners(e: Cipher, d: Cipher, p: bytes)
    decreases e
  {
    match e
    case NoCipher => d.NoCipher?
    case XorCipher(key, iv) => d.XorCipher? && d.key == key && iv.Some? && XorInvertible(key, iv.value, p)
    case AesCtr(_, nonce, enc, _, aes) =>
      d.AesCtr? && d.aes == aes && nonce.Some? && |nonce.value| == 16 && enc == Live(d.aesKey, nonce.value)
      && CtrKeyLength(|d.aesKey|)
    case SimpleSsl(inner, h, n) =>
      d.SimpleSsl? && d.hashfunc == h && d.numberOfParams == n && n == NumberOfParams(inner)
      && FixedDigest(h) && Partners(inner, d.inner, p + h(p))
  }

  /**
   * The encrypting side succeeds, the receiving side installs the sender's
   * parameters (there is at most one) and decrypts back to `p`.
   */
  lemma {:induction false} PartnersRoundTrip(e: Cipher, d: Cipher, p: bytes)
    requires Partners(e, d, p)
    ensures ClassOf(e) == ClassOf(d)
    ensures var o := Encrypt(e, p);
      o.result.Ok? && NumberOfParams(d) == NumberOfParams(e) <= 1 &&
      (NumberOfParams(e) == 0 ==> Decrypt(d, o.result.value).result == Ok(p)) &&
      (NumberOfParams(e) == 1 ==>
        GetParam(o.after, 0).Ok? && |GetParam(o.after, 0).value| == RandomLength(e) &&
        SetParam(d, 0, GetParam(o.after, 0).value).Ok? &&
        Decrypt(SetParam(d, 0, GetParam(o.after, 0).value).value, o.result.value).result == Ok(p))
    decreases e
  {
    match e
    case NoCipher =>
    case XorCipher(key, iv) =>
      XorRoundTrip(key, iv.value, p);
    case AesCtr(_, nonce, enc, _, aes) =>
      CtrInvolution(aes, d.aesKey, nonce.value, p);
    case SimpleSsl(inner, h, n) =>
      PartnersRoundTrip(inner, d.inner, p + h(p));
      var o := Encrypt(inner, p + h(p));
      if n == 0 {
        SslAccepts(d.inner, h, n, o.result.value, p);
      } else {
        var v := GetParam(o.after, 0).value;
        SslAccepts(SetParam(d.inner, 0, v).value, h, n, o.result.value, p);
      }
  }

  /* ---------------- the wire tag ---------------- */

  lemma XorFoldSnoc(b: bytes, x: byte)
    requires |b| > 0
    ensures XorFold(b + [x]) == Xor(XorFold(b), x)
  {
    assert (b + [x])[..|b|] == b;
  }

  /** The bytes of an ASCII name are its character codes. */
  lemma AsciiName(s: string, b: bytes)
    requires Utf8.IsAscii(s) && |b| == |s|
    requires forall i :: 0 <= i < |s| ==> b[i] as int == s[i] as int
    ensures Utf8.Encode(s) == b
  {
    Utf8.EncodeAscii(s);
  }

  /** The tag of a name whose bytes are `b`, with the fold of `b` given. */
  lemma TagOf(name: string, b: bytes, fold: byte)
    requires Utf8.IsAscii(name) && 0 < |b| == |name| < 256
    requires forall i :: 0 <= i < |name| ==> b[i] as int == name[i] as int
    requires XorFold(b) == fold
    ensures Utf8.Encode(name) == b && HashName(name) == [fold, Xor(fold, Byte(|b|))]
  {
    AsciiName(name, b);
  }

  lemma Fold4(a: byte, b: byte, c: byte, d: byte)
    ensures XorFold([a, b, c, d]) == a ^ b ^ c ^ d
  {
    XorFoldSnoc([a], b);
    assert [a] + [b] == [a, b];
    XorFoldSnoc([a, b], c);
    assert [a, b] + [c] == [a, b, c];
    XorFoldSnoc([a, b, c], d);
    assert [a, b, c] + [d] == [a, b, c, d];
  }

  lemma Fold5(a: byte, b: byte, c: byte, d: byte, e: byte)
    ensures XorFold([a, b, c, d, e]) == a ^ b ^ c ^ d ^ e
  {
    Fold4(a, b, c, d);
    XorFoldSnoc([a, b, c, d], e);
    assert [a, b, c, d] + [e] == [a, b, c, d, e];
  }

  lemma Fold6(a: byte, b: byte, c: byte, d: byte, e: byte, f: byte)
    ensures XorFold([a, b, c, d, e, f]) == a ^ b ^ c ^ d ^ e ^ f
  {
    Fold5(a, b, c, d, e);
    XorFoldSnoc([a, b, c, d, e], f);
    assert [a, b, c, d, e] + [f] == [a, b, c, d, e, f];
  }

  lemma Fold7(a: byte, b: byte, c: byte, d: byte, e: byte, f: byte, g: byte)
    ensures XorFold([a, b, c, d, e, f, g]) == a ^ b ^ c ^ d ^ e ^ f ^ g
  {
    Fold6(a, b, c, d, e, f);
    XorFoldSnoc([a, b, c, d, e, f], g);
    assert [a, b, c, d, e, f] + [g] == [a, b, c, d, e, f, g];
  }

  lemma Fold8(a: byte, b: byte, c: byte, d: byte, e: byte, f: byte, g: byte, h: byte)
    ensures XorFold([a, b, c, d, e, f, g, h]) == a ^ b ^ c ^ d ^ e ^ f ^ g ^ h
  {
    Fold7(a, b, c, d, e, f, g);
    XorFoldSnoc([a, b, c, d, e, f, g], h);
    assert [a, b, c, d, e, f, g] + [h] == [a, b, c, d, e, f, g, h];
  }

  lemma Fold9(a: byte, b: byte, c: byte, d: byte, e: byte, f: byte, g: byte, h: byte, i: byte)
    ensures XorFold([a, b, c, d, e, f, g, h, i]) == a ^ b ^ c ^ d ^ e ^ f ^ g ^ h ^ i
  {
    Fold8(a, b, c, d, e, f, g, h);
    XorFoldSnoc([a, b, c, d, e, f, g, h], i);
    assert [a, b, c, d, e, f, g, h] + [i] == [a, b, c, d, e, f, g, h, i];
  }

  lemma TagOfAesCtr() ensures HashName(ClassName(AesCtrClass)) == [77, 74]
  {
    Fold7(0x41, 0x45, 0x53, 0x5F, 0x43, 0x54, 0x52);
    TagOf("AES_CTR", [0x41, 0x45, 0x53, 0x5F, 0x43, 0x54, 0x52], 77);
  }

  lemma TagOfNoCipher() ensures HashName(ClassName(NoCipherClass)) == [4, 12]
  {
    Fold8(0x4E, 0x6F, 0x43, 0x69, 0x70, 0x68, 0x65, 0x72);
    TagOf("NoCipher", [0x4E, 0x6F, 0x43, 0x69, 0x70, 0x68, 0x65, 0x72], 4);
  }

  lemma TagOfSimpleSsl() ensures HashName(ClassName(SimpleSslClass)) == [98, 107]
  {
    Fold9(0x53, 0x69, 0x6D, 0x70, 0x6C, 0x65, 0x53, 0x53, 0x4C);
    TagOf("SimpleSSL", [0x53, 0x69, 0x6D, 0x70, 0x6C, 0x65, 0x53, 0x53, 0x4C], 98);
  }

  lemma TagOfXorCipher() ensures HashName(ClassName(XorCipherClass)) == [96, 105]
  {
    Fold9(0x58, 0x6F, 0x72, 0x43, 0x69, 0x70, 0x68, 0x65, 0x72);
    TagOf("XorCipher", [0x58, 0x6F, 0x72, 0x43, 0x69, 0x70, 0x68, 0x65, 0x72], 96);
  }

  lemma TagOfBaseCipher() ensures HashName(ClassName(BaseCipherClass)) == [122, 125]
  {
    Fold7(0x5F, 0x43, 0x69, 0x70, 0x68, 0x65, 0x72);
    TagOf("_Cipher", [0x5F, 0x43, 0x69, 0x70, 0x68, 0x65, 0x72], 122);
  }

  /** The tag table is `hash_name` of each class name. */
  lemma TagIsHashName(k: CipherClass)
    ensures Tag(k) == HashName(ClassName(k))
  {
    match k
    case AesCtrClass => TagOfAesCtr();
    case NoCipherClass => TagOfNoCipher();
    case SimpleSslClass => TagOfSimpleSsl();
    case XorCipherClass => TagOfXorCipher();
    case BaseCipherClass => TagOfBaseCipher();
  }

  /** No two cipher classes share a tag. */
  lemma TagsDistinct(k1: CipherClass, k2: CipherClass)
    ensures HashName(ClassName(k1)) == HashName(ClassName(k2)) <==> k1 == k2
    ensures Tag(k1) == Tag(k2) <==> k1 == k2
  {
    TagIsHashName(k1);
    TagIsHashName(k2);
  }

  lemma {:induction false} LookupLastSound(entries: seq<(bytes, CipherClass)>, tag: bytes)
    ensures LookupLast(entries, tag).Some? ==> (tag, LookupLast(entries, tag).value) in entries
    decreases |entries|
  {
    if entries != [] && entries[|entries| - 1].0 != tag {
      var init := entries[..|entries| - 1];
      LookupLastSound(init, tag);
      if LookupLast(init, tag).Some? {
        assert (tag, LookupLast(init, tag).value) in init;
      }
    }
  }

  lemma {:induction false} LookupLastComplete(entries: seq<(bytes, CipherClass)>, tag: bytes, k: CipherClass)
    requires (tag, k) in entries
    ensures LookupLast(entries, tag).Some?
    decreases |entries|
  {
    var init := entries[..|entries| - 1];
    if entries[|entries| - 1].0 != tag {
      assert entries == init + [entries[|entries| - 1]];
      assert (tag, k) in init;
      LookupLastComplete(init, tag, k);
    }
  }

  /** In a dictionary whose every entry is filed under its own class's tag, a class's tag finds it. */
  lemma LookupOwnTag(entries: seq<(bytes, CipherClass)>, k: CipherClass)
    requires (Tag(k), k) in entries
    requires forall e :: e in entries ==> e.0 == Tag(e.1)
    ensures LookupLast(entries, Tag(k)) == Some(k)
  {
    LookupLastComplete(entries, Tag(k), k);
    var found := LookupLast(entries, Tag(k)).value;
    LookupLastSound(entries, Tag(k));
    TagsDistinct(k, found);
  }

  lemma {:induction false} RegistrationsOwnTags(classes: seq<CipherClass>, k: CipherClass)
    requires k in classes
    ensures (Tag(k), k) in Registrations(classes)
    ensures forall e :: e in Registrations(classes) ==> e.0 == Tag(e.1)
  {
    var r := Registrations(classes);
    var i :| 0 <= i < |classes| && classes[i] == k;
    assert r[i] == (Tag(k), k);
    forall e | e in r ensures e.0 == Tag(e.1) {
      var j :| 0 <= j < |r| && r[j] == e;
    }
  }

  /** The registry maps every class's tag back to that class. */
  lemma RegistryFinds(k: CipherClass)
    ensures CipherFromHash(Tag(k)) == Some(k)
  {
    assert k in RegisteredClasses;
    RegistrationsOwnTags(RegisteredClasses, k);
    LookupOwnTag(Registrations(RegisteredClasses), k);
  }

  /** Only a class's own tag finds it. */
  lemma RegistryOnlyTags(tag: bytes)
    ensures CipherFromHash(tag).Some? ==> Tag(CipherFromHash(tag).value) == tag
  {
    var entries := Registrations(RegisteredClasses);
    LookupLastSound(entries, tag);
    if CipherFromHash(tag).Some? {
      var j :| 0 <= j < |entries| && entries[j] == (tag, CipherFromHash(tag).value);
    }
  }
}

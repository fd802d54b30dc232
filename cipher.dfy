/**
 * The cipher suite: the null cipher, the demonstration XOR cipher, AES in CTR
 * mode (key and parameter handling only) and the authenticating wrapper
 * SimpleSSL, as one closed datatype that carries each cipher's parameter state.
 */
module CipherSuite {
  import opened Bytes
  import opened Wrappers
  import Utf8

  /**
   * The AES-CTR keystream: the byte at position `i` of the keystream for a key
   * and a 16-byte initial counter block (section 6.5 of NIST SP 800-38A). The
   * block cipher itself comes from a foreign library, so it is an input.
   */
  type Keystream = (bytes, bytes, nat) -> byte

  /** A hash function such as `hashlib.sha256`, from message to digest. */
  type HashFunction = bytes -> bytes

  /** An AES-CTR encryptor or decryptor context of the foreign library. */
  datatype CtrContext = Unset | Live(key: bytes, nonce: bytes) | Finalized

  datatype Cipher =
    | NoCipher
    | XorCipher(key: byte, iv: Option<byte>)
    | AesCtr(aesKey: bytes, nonce: Option<bytes>, encryptor: CtrContext, decryptor: CtrContext, aes: Keystream)
    | SimpleSsl(inner: Cipher, hashfunc: HashFunction, numberOfParams: nat)

  /** What a cipher call returns, together with the cipher's state after the call. */
  datatype Outcome = Outcome(result: Result<bytes, Error>, after: Cipher)

  /* ---------------- construction ---------------- */

  /** `XorCipher(key)`. */
  function NewXorCipher(key: bytes): (r: Result<Cipher, Error>)
    ensures r.Ok? <==> |key| == 1
    ensures r.Ok? ==> r.value == XorCipher(key[0], None)
  {
    if |key| != 1 then Err(InvalidArgument("Key of XorCipher must a bytes object of length 1"))
    else Ok(XorCipher(key[0], None))
  }

  predicate ValidAesKeyLength(n: nat) { n * 8 in {128, 192, 256, 512} }

  /**
   * The key lengths the foreign library's CTR mode accepts when an encryptor
   * is built: AES_CTR admits a 512-bit key that CTR mode then refuses.
   */
  predicate CtrKeyLength(n: nat) { n * 8 in {128, 192, 256} }

  /** `AES_CTR(key)`; the nonce and both contexts are not set yet. */
  function NewAesCtr(key: bytes, aes: Keystream): (r: Result<Cipher, Error>)
    ensures r.Ok? <==> |key| in {16, 24, 32, 64}
    ensures r.Ok? ==> r.value.AesCtr? && r.value.aesKey == key && r.value.nonce.None?
  {
    if !ValidAesKeyLength(|key|) then Err(InvalidArgument("Key size of AES must be in {128, 192, 256, 512}"))
    else Ok(AesCtr(key, None, Unset, Unset, aes))
  }

  /** `SimpleSSL(cipher, hashfunc)`: the parameter count is copied from the inner cipher. */
  function NewSimpleSsl(inner: Cipher, hashfunc: HashFunction): (c: Cipher)
    ensures NumberOfParams(c) == NumberOfParams(inner)
  {
    SimpleSsl(inner, hashfunc, NumberOfParams(inner))
  }

  function NumberOfParams(c: Cipher): nat
  {
    match c
    case NoCipher => 0
    case XorCipher(_, _) => 1
    case AesCtr(_, _, _, _, _) => 1
    case SimpleSsl(_, _, n) => n
  }

  /** `hashfunc(b"").digest_size`. */
  function DigestLength(h: HashFunction): nat { |h([])| }

  /** A real hash: every digest has the same, positive length. */
  ghost predicate FixedDigest(h: HashFunction)
  {
    DigestLength(h) > 0 && forall m {:trigger h(m)} :: |h(m)| == DigestLength(h)
  }

  /* ---------------- keys and parameters ---------------- */

  /** `reset_key(newkey)`. A live AES context keeps the key it was made with. */
  function ResetKey(c: Cipher, newkey: bytes): (r: Result<Cipher, Error>)
    ensures r.Ok? ==> NumberOfParams(r.value) == NumberOfParams(c)
    ensures c.XorCipher? ==> (r.Ok? <==> |newkey| == 1)
    ensures c.AesCtr? ==> (r.Ok? <==> ValidAesKeyLength(|newkey|))
    ensures Innermost(c).NoCipher? ==> r == Ok(c)
    ensures c.SimpleSsl? ==> (r.Ok? <==> ResetKey(c.inner, newkey).Ok?)
  {
    match c
    case NoCipher => Ok(c)
    case XorCipher(_, iv) =>
      if |newkey| != 1 then Err(InvalidArgument("Key of XorCipher must a bytes object of length 1"))
      else Ok(XorCipher(newkey[0], iv))
    case AesCtr(_, nonce, enc, dec, aes) =>
      if !ValidAesKeyLength(|newkey|) then Err(InvalidArgument("Key size of AES must be in {128, 192, 256, 512}"))
      else Ok(AesCtr(newkey, nonce, enc, dec, aes))
    case SimpleSsl(inner, h, n) =>
      match ResetKey(inner, newkey)
      case Err(e) => Err(e)
      case Ok(inner') => Ok(SimpleSsl(inner', h, n))
  }

  /**
   * What a successful `reset_key` returns: True for NoCipher, None (false
   * here) for XorCipher and AES_CTR; SimpleSSL hands on its inner cipher's.
   */
  function ResetKeyFlag(c: Cipher): bool
  {
    match c
    case NoCipher => true
    case XorCipher(_, _) => false
    case AesCtr(_, _, _, _, _) => false
    case SimpleSsl(inner, _, _) => ResetKeyFlag(inner)
  }

  /**
   * `set_param(index, value)`. For AES_CTR the nonce is stored first and the
   * contexts are built after it, so a key CTR mode refuses raises ValueError
   * with the nonce already in place (see `FailedSetParam`).
   */
  function SetParam(c: Cipher, index: nat, value: bytes): (r: Result<Cipher, Error>)
    ensures r.Ok? ==> NumberOfParams(r.value) == NumberOfParams(c)
    ensures Innermost(c).AesCtr? ==>
      (r.Ok? <==> index == 0 && |value| == 16 && CtrKeyLength(|Innermost(c).aesKey|))
  {
    match c
    case NoCipher => Err(InvalidArgument("Index exceeds (NoCipher doesn't use any parameters"))
    case XorCipher(key, _) =>
      if index != 0 then Err(InvalidArgument("Index exceeds (XorCipher use only one parameter)"))
      else if |value| != 1 then Err(InvalidArgument("IV of XorCipher must be an 1-length bytes object"))
      else Ok(XorCipher(key, Some(value[0])))
    case AesCtr(key, _, _, _, aes) =>
      if index != 0 then Err(InvalidArgument("AES only use the nonce value as its parameter"))
      else if |value| != 16 then Err(InvalidArgument("Invalid length of nonce value, expected 16 bytes"))
      else if !CtrKeyLength(|key|) then Err(ValueError("Only 128, 192, and 256 bit keys are allowed for this AES mode"))
      else Ok(AesCtr(key, Some(value), Live(key, value), Live(key, value), aes))
    case SimpleSsl(inner, h, n) =>
      match SetParam(inner, index, value)
      case Err(e) => Err(e)
      case Ok(inner') => Ok(SimpleSsl(inner', h, n))
  }

  /**
   * The cipher a failed `set_param` leaves behind. Only AES_CTR's refused key
   * changes anything: the new nonce is stored, and the contexts are the ones
   * from before.
   */
  function FailedSetParam(c: Cipher, index: nat, value: bytes): (r: Cipher)
    requires SetParam(c, index, value).Err?
    ensures ClassOf(r) == ClassOf(c) && NumberOfParams(r) == NumberOfParams(c)
    ensures Innermost(c).AesCtr? && index == 0 && |value| == 16 ==>
      SetParam(c, index, value).error.ValueError? &&
      Innermost(r) == Innermost(c).(nonce := Some(value))
    ensures !(Innermost(c).AesCtr? && index == 0 && |value| == 16) ==> r == c
  {
    match c
    case AesCtr(key, _, enc, dec, aes) =>
      if index == 0 && |value| == 16 then AesCtr(key, Some(value), enc, dec, aes) else c
    case SimpleSsl(inner, h, n) => SimpleSsl(FailedSetParam(inner, index, value), h, n)
    case _ => c
  }

  /** `get_param(index)`. */
  function GetParam(c: Cipher, index: nat): Result<bytes, Error>
  {
    match c
    case NoCipher => Err(InvalidArgument("Index exceeds (NoCipher doesn't use any parameters"))
    case XorCipher(_, iv) =>
      if index != 0 then Err(InvalidArgument("XorCipher use only one parameter"))
      else if iv.None? then Err(AttributeError)
      else Ok([iv.value])
    case AesCtr(_, nonce, _, _, _) =>
      if index != 0 then Err(InvalidArgument("AES only use the nonce value as its parameter"))
      else if nonce.None? then Err(AttributeError)
      else Ok(nonce.value)
    case SimpleSsl(inner, _, _) => GetParam(inner, index)
  }

  /** How many bytes `os.urandom` supplies to `reset_params`. */
  function RandomLength(c: Cipher): (r: nat)
    ensures r <= 16
  {
    match c
    case NoCipher => 0
    case XorCipher(_, _) => 1
    case AesCtr(_, _, _, _, _) => 16
    case SimpleSsl(inner, _, _) => RandomLength(inner)
  }

  /**
   * `reset_params()` with the random bytes given: the returned flag, or the
   * exception `set_param` raised, together with the new cipher. AES_CTR
   * reports False although it did set the new nonce, because its `set_param`
   * returns None.
   */
  function ResetParams(c: Cipher, random: bytes): (r: (Result<bool, Error>, Cipher))
    requires |random| == RandomLength(c)
    ensures Innermost(c).NoCipher? ==> r == (Ok(true), c)
    ensures !Innermost(c).NoCipher? && SetParam(c, 0, random).Ok? ==>
      r.0.Ok? && r.1 == SetParam(c, 0, random).value
    ensures !Innermost(c).NoCipher? && SetParam(c, 0, random).Err? ==>
      r == (Err(SetParam(c, 0, random).error), FailedSetParam(c, 0, random))
    ensures r.0.Ok? ==> (r.0.value <==> !Innermost(c).AesCtr?)
  {
    match c
    case NoCipher => (Ok(true), c)
    case XorCipher(key, _) => (Ok(true), XorCipher(key, Some(random[0])))
    case AesCtr(_, _, _, _, _) =>
      (match SetParam(c, 0, random)
       case Err(e) => (Err(e), FailedSetParam(c, 0, random))
       case Ok(c') => (Ok(false), c'))
    case SimpleSsl(inner, h, n) =>
      var (res, inner') := ResetParams(inner, random);
      (res, SimpleSsl(inner', h, n))
  }

  /** The cipher at the bottom of a stack of SimpleSSL wrappers. */
  function Innermost(c: Cipher): Cipher
  {
    if c.SimpleSsl? then Innermost(c.inner) else c
  }

  /* ---------------- the transforms ---------------- */

  /**
   * XorCipher's transform: every byte `c` becomes the UTF-8 encoding of
   * `chr(c ^ key ^ iv)`, one byte below 128 and two bytes from 128 on.
   */
  function XorBytes(key: byte, iv: byte, p: bytes): bytes
  {
    if p == [] then []
    else XorBytes(key, iv, p[..|p| - 1]) + Utf8.EncodeCodePoint(XorByte(key, iv, p[|p| - 1]) as int)
  }

  /** `c ^ key ^ iv`. */
  function XorByte(key: byte, iv: byte, c: byte): byte { Xor(Xor(c, key), iv) }

  /** The loop of `XorCipher.encrypt`, which `decrypt` also runs. */
  method XorEncrypt(key: byte, iv: byte, p: bytes) returns (ciphertext: bytes)
    ensures ciphertext == XorBytes(key, iv, p)
  {
    ciphertext := [];
    var i := 0;
    while i < |p|
      invariant 0 <= i <= |p|
      invariant ciphertext == XorBytes(key, iv, p[..i])
    {
      XorBytesStep(key, iv, p, i);
      ciphertext := ciphertext + Utf8.EncodeCodePoint(XorByte(key, iv, p[i]) as int);
      i := i + 1;
    }
    assert p[..|p|] == p;
  }

  /** One more byte of the input adds its transform at the end. */
  lemma XorBytesStep(key: byte, iv: byte, p: bytes, i: nat)
    requires i < |p|
    ensures XorBytes(key, iv, p[..i + 1]) == XorBytes(key, iv, p[..i]) + Utf8.EncodeCodePoint(XorByte(key, iv, p[i]) as int)
  {
    assert p[..i + 1][..i] == p[..i];
  }

  /** CTR mode: the data XORed with the keystream for (key, nonce). */
  function CtrApply(aes: Keystream, key: bytes, nonce: bytes, data: bytes): (r: bytes)
    ensures |r| == |data|
  {
    seq(|data|, i requires 0 <= i < |data| => Xor(data[i], aes(key, nonce, i)))
  }

  /** `encrypt(plaintext)` with `finalize=True`. */
  function Encrypt(c: Cipher, plaintext: bytes): (o: Outcome)
    ensures o.result.Err? ==> o.after == c
    ensures NumberOfParams(o.after) == NumberOfParams(c)
    ensures ClassOf(o.after) == ClassOf(c)
  {
    match c
    case NoCipher => Outcome(Ok(plaintext), c)
    case XorCipher(key, iv) =>
      if iv.None? then Outcome(Err(EncryptFailed("IV has not been set yet")), c)
      else Outcome(Ok(XorBytes(key, iv.value, plaintext)), c)
    case AesCtr(key, nonce, enc, dec, aes) =>
      (match enc
       case Unset => Outcome(Err(EncryptFailed("Nonce has not been set yet")), c)
       case Finalized => Outcome(Err(EncryptFailed("Don't reuse nonce value again")), c)
       case Live(k, n) => Outcome(Ok(CtrApply(aes, k, n, plaintext)), AesCtr(key, nonce, Finalized, dec, aes)))
    case SimpleSsl(inner, h, n) =>
      var o := Encrypt(inner, plaintext + h(plaintext));
      Outcome(o.result, if o.result.Err? then c else SimpleSsl(o.after, h, n))
  }

  /** Python's `s[:-n]`: for n == 0 this is the empty sequence. */
  function DropLast(s: bytes, n: nat): bytes
  {
    if n == 0 || |s| <= n then [] else s[..|s| - n]
  }

  /** Python's `s[-n:]`: for n == 0 this is the whole sequence. */
  function TakeLast(s: bytes, n: nat): bytes
  {
    if n == 0 || |s| <= n then s else s[|s| - n..]
  }

  /** `decrypt(ciphertext)` with `finalize=True`. AES reports its failures as EncryptFailed. */
  function Decrypt(c: Cipher, ciphertext: bytes): (o: Outcome)
    ensures NumberOfParams(o.after) == NumberOfParams(c)
  {
    match c
    case NoCipher => Outcome(Ok(ciphertext), c)
    case XorCipher(key, iv) =>
      if iv.None? then Outcome(Err(EncryptFailed("IV has not been set yet")), c)
      else Outcome(Ok(XorBytes(key, iv.value, ciphertext)), c)
    case AesCtr(key, nonce, enc, dec, aes) =>
      (match dec
       case Unset => Outcome(Err(EncryptFailed("Nonce has not been set yet")), c)
       case Finalized => Outcome(Err(EncryptFailed("Don't reuse nonce value again")), c)
       case Live(k, n) => Outcome(Ok(CtrApply(aes, k, n, ciphertext)), AesCtr(key, nonce, enc, Finalized, aes)))
    case SimpleSsl(inner, h, n) =>
      var o := Decrypt(inner, ciphertext);
      var after := SimpleSsl(o.after, h, n);
      match o.result
      case Err(e) => Outcome(Err(e), after)
      case Ok(authenticated) =>
        var plaintext := DropLast(authenticated, DigestLength(h));
        if h(plaintext) == TakeLast(authenticated, DigestLength(h)) then Outcome(Ok(plaintext), after)
        else Outcome(Err(UnAuthenticatedPacket), after)
  }

  /* ---------------- the wire tag ---------------- */

  datatype CipherClass = BaseCipherClass | NoCipherClass | XorCipherClass | AesCtrClass | SimpleSslClass

  function ClassName(k: CipherClass): (name: string)
    ensures 0 < |Utf8.Encode(name)| < 256
  {
    match k
    case BaseCipherClass => "_Cipher"
    case NoCipherClass => "NoCipher"
    case XorCipherClass => "XorCipher"
    case AesCtrClass => "AES_CTR"
    case SimpleSslClass => "SimpleSSL"
  }

  function ClassOf(c: Cipher): CipherClass
  {
    match c
    case NoCipher => NoCipherClass
    case XorCipher(_, _) => XorCipherClass
    case AesCtr(_, _, _, _, _) => AesCtrClass
    case SimpleSsl(_, _, _) => SimpleSslClass
  }

  /** `isinstance(c, k)`: every cipher is an instance of the base class. */
  predicate IsInstance(c: Cipher, k: CipherClass)
  {
    k == BaseCipherClass || k == ClassOf(c)
  }

  /** The XOR of all bytes of a non-empty sequence. */
  function XorFold(b: bytes): byte
    requires |b| > 0
  {
    if |b| == 1 then b[0] else Xor(XorFold(b[..|b| - 1]), b[|b| - 1])
  }

  /** `hash_name` as written: a loop over the name's bytes after the first. */
  method ComputeHashName(name: string) returns (tag: bytes)
    requires 0 < |Utf8.Encode(name)| < 256
    ensures tag == HashName(name)
  {
    var b := Utf8.Encode(name);
    var hashValue := b[0];
    var i := 1;
    while i < |b|
      invariant 1 <= i <= |b|
      invariant hashValue == XorFold(b[..i])
    {
      XorFoldStep(b, i);
      hashValue := Xor(hashValue, b[i]);
      i := i + 1;
    }
    assert b[..|b|] == b;
    tag := [hashValue, Xor(hashValue, Byte(|b|))];
  }

  /** One more byte folds into the running XOR. */
  lemma XorFoldStep(b: bytes, i: nat)
    requires 1 <= i < |b|
    ensures XorFold(b[..i + 1]) == Xor(XorFold(b[..i]), b[i])
  {
    assert b[..i + 1][..i] == b[..i];
  }

  /** `hash_name`: the XOR-fold `x` of the name's bytes, then `x ^ len(name)`. */
  function HashName(name: string): (tag: bytes)
    requires 0 < |Utf8.Encode(name)| < 256
    ensures |tag| == 2
    ensures Xor(tag[0], tag[1]) == Byte(|Utf8.Encode(name)|)
  {
    var b := Utf8.Encode(name);
    var x := XorFold(b);
    [x, Xor(x, Byte(|b|))]
  }

  /** The wire tag of a cipher class, `hash_name` of its name (see CipherLaws.TagIsHashName). */
  function Tag(k: CipherClass): (tag: bytes)
    ensures |tag| == 2
  {
    match k
    case AesCtrClass => [77, 74]
    case NoCipherClass => [4, 12]
    case SimpleSslClass => [98, 107]
    case XorCipherClass => [96, 105]
    case BaseCipherClass => [122, 125]
  }

  /** The classes `cipher_from_hash` is filled with, in the order `dir()` lists them. */
  const RegisteredClasses: seq<CipherClass> :=
    [AesCtrClass, NoCipherClass, SimpleSslClass, XorCipherClass, BaseCipherClass]

  /** The registrations `cipher_from_hash[hash_name(k)] = k`, in order. */
  function Registrations(classes: seq<CipherClass>): seq<(bytes, CipherClass)>
  {
    seq(|classes|, i requires 0 <= i < |classes| => (Tag(classes[i]), classes[i]))
  }

  /** A dictionary built by these assignments: the last assignment to a tag wins. */
  function LookupLast(entries: seq<(bytes, CipherClass)>, tag: bytes): Option<CipherClass>
  {
    if entries == [] then None
    else if entries[|entries| - 1].0 == tag then Some(entries[|entries| - 1].1)
    else LookupLast(entries[..|entries| - 1], tag)
  }

  /** `cipher_from_hash.get(tag, None)`. */
  function CipherFromHash(tag: bytes): Option<CipherClass>
  {
    LookupLast(Registrations(RegisteredClasses), tag)
  }

  /* ---------------- the shared cipher object ---------------- */

  /** One cipher call on a cipher value, running the XOR loop where the source does. */
  method RunEncrypt(c: Cipher, plaintext: bytes) returns (o: Outcome)
    ensures o == Encrypt(c, plaintext)
    decreases c
  {
    match c
    case XorCipher(key, iv) =>
      if iv.None? {
        o := Outcome(Err(EncryptFailed("IV has not been set yet")), c);
      } else {
        var ciphertext := XorEncrypt(key, iv.value, plaintext);
        o := Outcome(Ok(ciphertext), c);
      }
    case SimpleSsl(inner, h, n) =>
      var o' := RunEncrypt(inner, plaintext + h(plaintext));
      o := Outcome(o'.result, if o'.result.Err? then c else SimpleSsl(o'.after, h, n));
    case _ =>
      o := Encrypt(c, plaintext);
  }

  method RunDecrypt(c: Cipher, ciphertext: bytes) returns (o: Outcome)
    ensures o == Decrypt(c, ciphertext)
    decreases c
  {
    match c
    case XorCipher(key, iv) =>
      if iv.None? {
        o := Outcome(Err(EncryptFailed("IV has not been set yet")), c);
      } else {
        var plaintext := XorEncrypt(key, iv.value, ciphertext);
        o := Outcome(Ok(plaintext), c);
      }
    case SimpleSsl(inner, h, n) =>
      var o' := RunDecrypt(inner, ciphertext);
      var after := SimpleSsl(o'.after, h, n);
      match o'.result {
        case Err(e) =>
          o := Outcome(Err(e), after);
        case Ok(authenticated) =>
          var plaintext := DropLast(authenticated, DigestLength(h));
          if h(plaintext) == TakeLast(authenticated, DigestLength(h)) {
            o := Outcome(Ok(plaintext), after);
          } else {
            o := Outcome(Err(UnAuthenticatedPacket), after);
          }
      }
    case _ =>
      o := Decrypt(c, ciphertext);
  }
}

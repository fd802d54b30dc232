/**
 * The secure frame: a plain frame whose header is extended by
 * `cipher tag:2 | number of params:u8 | (param size:u8 | param)*`,
 * and whose payload is the ciphertext. The header-size field covers the
 * secure header, so a plain decoder still finds the payload.
 */
module SecurePacket {
  import opened Bytes
  import opened Wrappers
  import Packet
  import opened CipherSuite
  import CipherObjects
  import CipherLaws

  /** Where the secure header starts. */
  const ORIGINAL_HEADER_SIZE: nat := 6

  /* ---------------- encoder ---------------- */

  /** `acc` followed by the fields `size:u8 | param` for the parameters `i .. n-1`. */
  function ParamFields(c: Cipher, i: nat, n: nat, acc: bytes): Result<bytes, Error>
    decreases n - i
  {
    if i >= n then Ok(acc)
    else
      match GetParam(c, i)
      case Err(e) => Err(e)
      case Ok(v) => if |v| >= 256 then Err(StructError) else ParamFields(c, i + 1, n, acc + [Byte(|v|)] + v)
  }

  /** The secure header of a cipher. */
  function SecureHeader(c: Cipher): Result<bytes, Error>
  {
    var n := NumberOfParams(c);
    if n >= 256 then Err(StructError)
    else ParamFields(c, 0, n, Tag(ClassOf(c)) + [Byte(n)])
  }

  /** Python's `s[:n] + mid + s[n:]`. */
  function Splice(s: bytes, n: nat, mid: bytes): bytes
  {
    Slice(s, 0, n) + mid + From(s, n)
  }

  /**
   * `SecurePacketEncoder.__call__`: the frame, together with the cipher after
   * the call. Encryption comes first, so a later failure still leaves the
   * cipher's state changed.
   */
  function EncodeSecure(c: Cipher, payload: bytes): (Result<bytes, Error>, Cipher)
  {
    Assemble(Encrypt(c, payload))
  }

  /** The encoder's steps after encryption: the plain frame, the secure header and the new header size. */
  function Assemble(o: Outcome): (Result<bytes, Error>, Cipher)
  {
    match o.result
    case Err(e) => (Err(e), o.after)
    case Ok(ciphertext) =>
      match Packet.Encode(ciphertext)
      case Err(e) => (Err(e), o.after)
      case Ok(packet) =>
        match SecureHeader(o.after)
        case Err(e) => (Err(e), o.after)
        case Ok(header) =>
          var oldHeaderSize := FromBe(packet[..2]);
          var newHeaderSize := oldHeaderSize + |header|;
          if newHeaderSize >= TWO_16 then (Err(StructError), o.after)
          else (Ok(Be16(newHeaderSize) + From(Splice(packet, oldHeaderSize, header), 2)), o.after)
  }

  /* ---------------- decoder ---------------- */

  /**
   * The size byte at `at` and the parameter of that size after it, as the
   * decoder slices them; None when a slice comes back short, which
   * `struct.unpack` refuses.
   */
  function ParamAt(packet: bytes, at: nat): (r: Option<bytes>)
    ensures r.Some? <==> at < |packet| && at + 1 + packet[at] as int <= |packet|
    ensures r.Some? ==> r.value == packet[at + 1..at + 1 + packet[at] as int]
  {
    var sizeField := Slice(packet, at, at + 1);
    if |sizeField| != 1 then None
    else
      var param := Slice(packet, at + 1, at + 1 + sizeField[0] as int);
      if |param| != sizeField[0] as int then None else Some(param)
  }

  /**
   * The loop over the declared parameters `i .. n-1`, starting at offset `at`:
   * each parameter is installed with `set_param` as soon as it is read. On
   * failure the parameters set so far stay set, and so does whatever the
   * failing `set_param` stored before it raised.
   */
  function ReadParams(c: Cipher, packet: bytes, i: nat, n: nat, at: nat): (Result<(), Error>, Cipher)
    decreases n - i
  {
    if i >= n then (Ok(()), c)
    else
      match ParamAt(packet, at)
      case None => (Err(StructError), c)
      case Some(param) =>
        match SetParam(c, i, param)
        case Err(e) => (Err(e), FailedSetParam(c, i, param))
        case Ok(c') => ReadParams(c', packet, i + 1, n, at + 1 + |param|)
  }

  /** The cipher check: the tag names a registered class and the local cipher is an instance of it. */
  predicate TagAccepted(c: Cipher, packet: bytes)
  {
    var k := CipherFromHash(Slice(packet, ORIGINAL_HEADER_SIZE, ORIGINAL_HEADER_SIZE + 2));
    k.Some? && IsInstance(c, k.value)
  }

  /**
   * `SecurePacketDecoder.__call__`: the frame with its payload decrypted,
   * together with the cipher after the call. The secure header is read from
   * the whole packet, not only from the declared header.
   */
  function DecodeSecure(c: Cipher, packet: bytes): (Result<Packet.Frame, Error>, Cipher)
  {
    match Packet.Decode(packet)
    case Err(e) => (Err(e), c)
    case Ok(frame) =>
      if !TagAccepted(c, packet) then (Err(CipherTypeMismatch), c)
      else
        var countField := Slice(packet, ORIGINAL_HEADER_SIZE + 2, ORIGINAL_HEADER_SIZE + 3);
        if |countField| != 1 then (Err(StructError), c)
        else
          var read := ReadParams(c, packet, 0, countField[0] as int, ORIGINAL_HEADER_SIZE + 3);
          if read.0.Err? then (Err(read.0.error), read.1)
          else
            var o := Decrypt(read.1, frame.payload);
            match o.result
            case Err(e) => (Err(e), o.after)
            case Ok(plaintext) => (Ok(frame.(payload := plaintext)), o.after)
  }

  /* ---------------- the encoder and decoder objects ---------------- */

  class SecurePacketEncoder {
    const cipher: CipherObjects.CipherObject

    constructor (cipher: CipherObjects.CipherObject)
      ensures this.cipher == cipher
    {
      this.cipher := cipher;
    }

    method Encode(payload: bytes) returns (r: Result<bytes, Error>)
      modifies cipher
      ensures (r, cipher.state) == EncodeSecure(old(cipher.state), payload)
    {
      var ciphertext := cipher.Encrypt(payload);
      if ciphertext.Err? {
        return Err(ciphertext.error);
      }
      var packet := Packet.Encode(ciphertext.value);
      if packet.Err? {
        return Err(packet.error);
      }
      var header := BuildSecureHeader(cipher);
      if header.Err? {
        return Err(header.error);
      }
      var oldHeaderSize := FromBe(packet.value[..2]);
      var newHeaderSize := oldHeaderSize + |header.value|;
      if newHeaderSize >= TWO_16 {
        return Err(StructError);
      }
      AssembleOk(Outcome(ciphertext, cipher.state), packet.value, header.value);
      r := Ok(Be16(newHeaderSize) + From(Splice(packet.value, oldHeaderSize, header.value), 2));
    }
  }

  /** The encoder's steps after encryption when each of them succeeds. */
  lemma AssembleOk(o: Outcome, packet: bytes, header: bytes)
    requires o.result.Ok? && Packet.Encode(o.result.value) == Ok(packet) && SecureHeader(o.after) == Ok(header)
    requires FromBe(packet[..2]) + |header| < TWO_16
    ensures Assemble(o) == (Ok(Be16(FromBe(packet[..2]) + |header|) + From(Splice(packet, FromBe(packet[..2]), header), 2)), o.after)
  {}

  /** The header-building loop of the encoder. */
  method BuildSecureHeader(cipher: CipherObjects.CipherObject) returns (r: Result<bytes, Error>)
    ensures r == SecureHeader(cipher.state)
  {
    var n := NumberOfParams(cipher.state);
    if n >= 256 {
      return Err(StructError);
    }
    var tag := ComputeHashName(ClassName(ClassOf(cipher.state)));
    CipherLaws.TagIsHashName(ClassOf(cipher.state));
    var header := tag + [Byte(n)];
    var i := 0;
    while i < n
      invariant 0 <= i <= n
      invariant ParamFields(cipher.state, i, n, header) == SecureHeader(cipher.state)
    {
      var param := cipher.GetParam(i);
      if param.Err? {
        return Err(param.error);
      }
      if |param.value| >= 256 {
        return Err(StructError);
      }
      header := header + [Byte(|param.value|)] + param.value;
      i := i + 1;
    }
    r := Ok(header);
  }

  class SecurePacketDecoder {
    const cipher: CipherObjects.CipherObject

    constructor (cipher: CipherObjects.CipherObject)
      ensures this.cipher == cipher
    {
      this.cipher := cipher;
    }

    method Decode(packet: bytes) returns (r: Result<Packet.Frame, Error>)
      modifies cipher
      ensures (r, cipher.state) == DecodeSecure(old(cipher.state), packet)
    {
      var frame := Packet.Decode(packet);
      if frame.Err? {
        return Err(frame.error);
      }
      if !TagAccepted(cipher.state, packet) {
        return Err(CipherTypeMismatch);
      }
      var countField := Slice(packet, ORIGINAL_HEADER_SIZE + 2, ORIGINAL_HEADER_SIZE + 3);
      if |countField| != 1 {
        return Err(StructError);
      }
      var read := InstallParams(cipher, packet, countField[0] as int);
      if read.Err? {
        return Err(read.error);
      }
      var plaintext := cipher.Decrypt(frame.value.payload);
      if plaintext.Err? {
        return Err(plaintext.error);
      }
      r := Ok(frame.value.(payload := plaintext.value));
    }
  }

  /** The parameter loop of the decoder. */
  method InstallParams(cipher: CipherObjects.CipherObject, packet: bytes, n: nat) returns (r: Result<(), Error>)
    modifies cipher
    ensures (r, cipher.state) == ReadParams(old(cipher.state), packet, 0, n, ORIGINAL_HEADER_SIZE + 3)
  {
    var at: nat := ORIGINAL_HEADER_SIZE + 3;
    ghost var goal := ReadParams(cipher.state, packet, 0, n, at);
    for i := 0 to n
      invariant ReadParams(cipher.state, packet, i, n, at) == goal
    {
      var param := ParamAt(packet, at);
      if param.None? {
        return Err(StructError);
      }
      var installed := cipher.SetParam(i, param.value);
      if installed.Err? {
        return Err(installed.error);
      }
      at := at + 1 + |param.value|;
    }
    r := Ok(());
  }
}

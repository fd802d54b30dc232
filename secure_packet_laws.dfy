/** The layout of a secure frame, its round trip, and the cipher-type check. */
module SecurePacketLaws {
  import opened Bytes
  import opened Wrappers
  import Packet
  import opened CipherSuite
  import opened CipherLaws
  import opened SecurePacket

  /** The secure header of a cipher with no parameter or with one parameter. */
  lemma HeaderLayout(c: Cipher)
    requires NumberOfParams(c) <= 1
    ensures NumberOfParams(c) == 0 ==> SecureHeader(c) == Ok(Tag(ClassOf(c)) + [0])
    ensures NumberOfParams(c) == 1 && GetParam(c, 0).Ok? && |GetParam(c, 0).value| < 256 ==>
      SecureHeader(c) == Ok(Tag(ClassOf(c)) + [1] + [Byte(|GetParam(c, 0).value|)] + GetParam(c, 0).value)
  {}

  lemma PlainHeaderSize(ct: bytes)
    requires |ct| < TWO_32
    ensures FromBe(Packet.Encode(ct).value[..2]) == Packet.BASE_HEADER_SIZE
  {
    var packet := Packet.Encode(ct).value;
    Packet.EncodedHeader(ct, []);
    assert packet + [] == packet;
  }

  lemma SplicedFrame(ct: bytes, h: bytes)
    requires |ct| < TWO_32
    ensures From(Splice(Packet.Encode(ct).value, 6, h), 2) == Be32(|ct|) + h + ct
  {
    var packet := Packet.Encode(ct).value;
    assert Splice(packet, 6, h) == packet[..6] + h + packet[6..];
    assert packet[..6] == Be16(6) + Be32(|ct|);
  }

  /** The encoder's output: the header size covering the secure header, the ciphertext length, the secure header, the ciphertext. */
  lemma {:induction false} EncodedLayout(o: Outcome)
    requires o.result.Ok? && |o.result.value| < TWO_32 && SecureHeader(o.after).Ok?
    requires Packet.BASE_HEADER_SIZE + |SecureHeader(o.after).value| < TWO_16
    ensures Assemble(o) == (Ok(Layout(SecureHeader(o.after).value, o.result.value, [])), o.after)
  {
    var ct := o.result.value;
    var h := SecureHeader(o.after).value;
    assert Layout(h, ct, []) == Be16(6 + |h|) + (Be32(|ct|) + h + ct);
    SplicedFrame(ct, h);
    PlainHeaderSize(ct);
    AssembleOk(o, Packet.Encode(ct).value, h);
  }

  /** The encoder fails only when the ciphertext, the header or a field does not fit, or encryption fails. */
  lemma {:induction false} EncodeFails(o: Outcome)
    ensures Assemble(o).1 == o.after
    ensures Assemble(o).0.Ok? <==>
      o.result.Ok? && |o.result.value| < TWO_32 && SecureHeader(o.after).Ok?
      && Packet.BASE_HEADER_SIZE + |SecureHeader(o.after).value| < TWO_16
  {
    if o.result.Ok? && |o.result.value| < TWO_32 {
      PlainHeaderSize(o.result.value);
    }
  }

  /** A packet laid out as the encoder writes it, for a secure header `h`. */
  function Layout(h: bytes, ct: bytes, trailing: bytes): bytes
    requires Packet.BASE_HEADER_SIZE + |h| < TWO_16 && |ct| < TWO_32
  {
    Be16(Packet.BASE_HEADER_SIZE + |h|) + Be32(|ct|) + h + ct + trailing
  }

  lemma LayoutBytes(h: bytes, ct: bytes, trailing: bytes, i: nat)
    requires Packet.BASE_HEADER_SIZE + |h| < TWO_16 && |ct| < TWO_32 && i < |h|
    ensures Layout(h, ct, trailing)[6 + i] == h[i]
  {}

  /** The parameter loop reads back the one parameter the header carries. */
  lemma ReadOneParam(d: Cipher, h: bytes, ct: bytes, trailing: bytes, v: bytes)
    requires |v| < 256 && |h| == 4 + |v| && h[3] as int == |v| && h[4..] == v
    requires Packet.BASE_HEADER_SIZE + |h| < TWO_16 && |ct| < TWO_32
    requires SetParam(d, 0, v).Ok?
    ensures ReadParams(d, Layout(h, ct, trailing), 0, 1, 9) == (Ok(()), SetParam(d, 0, v).value)
  {
    var s := Layout(h, ct, trailing);
    LayoutBytes(h, ct, trailing, 3);
    assert s[10..10 + |v|] == v by {
      forall i | 0 <= i < |v| ensures s[10 + i] == v[i] {
        LayoutBytes(h, ct, trailing, 4 + i);
      }
    }
    ReadOneStep(d, s, v);
  }

  /** The parameter loop over one parameter, given the bytes it finds. */
  lemma ReadOneStep(d: Cipher, s: bytes, v: bytes)
    requires 10 + |v| <= |s| && s[9] as int == |v| && s[10..10 + |v|] == v
    requires SetParam(d, 0, v).Ok?
    ensures ReadParams(d, s, 0, 1, 9) == (Ok(()), SetParam(d, 0, v).value)
  {}

  /** A laid-out frame passes the plain decoder and the cipher check, and declares the header's count. */
  lemma {:induction false} LaidOutFrame(d: Cipher, h: bytes, ct: bytes, trailing: bytes)
    requires Packet.BASE_HEADER_SIZE + |h| < TWO_16 && |ct| < TWO_32
    requires |h| >= 3 && h[..2] == Tag(ClassOf(d))
    ensures var s := Layout(h, ct, trailing);
      Packet.Decode(s) == Ok(Packet.Frame(6 + |h|, |ct|, ct, 6 + |h| + |ct|)) &&
      Slice(s, 6, 8) == h[..2] && TagAccepted(d, s) && Slice(s, 8, 9) == [h[2]]
  {
    var s := Layout(h, ct, trailing);
    Packet.DecodeExtended(h, ct, trailing);
    assert Slice(s, 6, 8) == Tag(ClassOf(d)) by {
      LayoutBytes(h, ct, trailing, 0);
      LayoutBytes(h, ct, trailing, 1);
    }
    RegistryFinds(ClassOf(d));
    LayoutBytes(h, ct, trailing, 2);
  }

  /** The decoder's steps, given what each of them yields. */
  lemma DecodeSteps(d: Cipher, s: bytes, frame: Packet.Frame, n: byte, d': Cipher)
    requires Packet.Decode(s) == Ok(frame) && TagAccepted(d, s) && Slice(s, 8, 9) == [n]
    requires ReadParams(d, s, 0, n as int, 9) == (Ok(()), d')
    ensures var o := Decrypt(d', frame.payload);
      DecodeSecure(d, s) == (if o.result.Ok? then Ok(frame.(payload := o.result.value)) else Err(o.result.error), o.after)
  {}

  /** Decoding a frame whose secure header `h` declares no parameter. */
  lemma DecodeNoParam(d: Cipher, h: bytes, ct: bytes, trailing: bytes, p: bytes)
    requires |ct| < TWO_32 && |h| == 3 && h[..2] == Tag(ClassOf(d)) && h[2] == 0
    requires Decrypt(d, ct).result == Ok(p)
    ensures DecodeSecure(d, Layout(h, ct, trailing)).0 == Ok(Packet.Frame(9, |ct|, p, 9 + |ct|))
  {
    var s := Layout(h, ct, trailing);
    LaidOutFrame(d, h, ct, trailing);
    DecodeSteps(d, s, Packet.Frame(9, |ct|, ct, 9 + |ct|), 0, d);
  }

  /** Decoding a frame whose secure header `h` declares one parameter `v`. */
  lemma DecodeOneParam(d: Cipher, h: bytes, v: bytes, ct: bytes, trailing: bytes, p: bytes)
    requires |ct| < TWO_32 && |v| < 256 && |h| == 4 + |v|
    requires h[..2] == Tag(ClassOf(d)) && h[2] == 1 && h[3] as int == |v| && h[4..] == v
    requires SetParam(d, 0, v).Ok? && Decrypt(SetParam(d, 0, v).value, ct).result == Ok(p)
    ensures DecodeSecure(d, Layout(h, ct, trailing)).0 == Ok(Packet.Frame(10 + |v|, |ct|, p, 10 + |v| + |ct|))
  {
    var s := Layout(h, ct, trailing);
    LaidOutFrame(d, h, ct, trailing);
    ReadOneParam(d, h, ct, trailing, v);
    DecodeSteps(d, s, Packet.Frame(10 + |v|, |ct|, ct, 10 + |v| + |ct|), 1, SetParam(d, 0, v).value);
  }

  /** The header of a cipher with at most one parameter, in the shape the two decoding lemmas take. */
  lemma HeaderShape(c: Cipher)
    requires NumberOfParams(c) <= 1 && SecureHeader(c).Ok?
    ensures var h := SecureHeader(c).value;
      h[..2] == Tag(ClassOf(c)) && h[2] as int == NumberOfParams(c) &&
      (NumberOfParams(c) == 0 ==> |h| == 3) &&
      (NumberOfParams(c) == 1 ==>
         GetParam(c, 0).Ok? && |h| == 4 + |GetParam(c, 0).value| &&
         h[3] as int == |GetParam(c, 0).value| && h[4..] == GetParam(c, 0).value)
  {
    HeaderPrefix(c);
    HeaderLayout(c);
    if NumberOfParams(c) == 1 {
      var v := GetParam(c, 0).value;
      var h := SecureHeader(c).value;
      assert h == Tag(ClassOf(c)) + [1] + [Byte(|v|)] + v;
      assert h[3] == Byte(|v|);
      assert h[4..] == v;
    }
  }

  /** The round trip for the outcome of an encryption and a decoder cipher that reads it back. */
  lemma {:induction false} RoundTripFrame(o: Outcome, d: Cipher, p: bytes, trailing: bytes)
    requires o.result.Ok? && |o.result.value| < TWO_32
    requires ClassOf(o.after) == ClassOf(d) && NumberOfParams(o.after) <= 1
    requires NumberOfParams(o.after) == 0 ==> Decrypt(d, o.result.value).result == Ok(p)
    requires NumberOfParams(o.after) == 1 ==>
      GetParam(o.after, 0).Ok? && |GetParam(o.after, 0).value| <= 16 &&
      SetParam(d, 0, GetParam(o.after, 0).value).Ok? &&
      Decrypt(SetParam(d, 0, GetParam(o.after, 0).value).value, o.result.value).result == Ok(p)
    ensures Assemble(o).0.Ok?
    ensures var sent := Assemble(o).0.value;
      var r := DecodeSecure(d, sent + trailing).0;
      r.Ok? && r.value.payload == p && r.value.packetSize == |sent| && r.value.payloadSize == |o.result.value|
  {
    var ct := o.result.value;
    HeaderLayout(o.after);
    var h := SecureHeader(o.after).value;
    HeaderShape(o.after);
    AssembledLayout(o, trailing);
    if NumberOfParams(o.after) == 1 {
      DecodeOneParam(d, h, GetParam(o.after, 0).value, ct, trailing, p);
    } else {
      DecodeNoParam(d, h, ct, trailing, p);
    }
  }

  /** What the encoder sends, followed by `trailing`, is laid out around its secure header. */
  lemma AssembledLayout(o: Outcome, trailing: bytes)
    requires o.result.Ok? && |o.result.value| < TWO_32
    requires SecureHeader(o.after).Ok? && Packet.BASE_HEADER_SIZE + |SecureHeader(o.after).value| < TWO_16
    ensures Assemble(o).0.Ok?
    ensures Assemble(o).0.value + trailing == Layout(SecureHeader(o.after).value, o.result.value, trailing)
  {
    EncodeFails(o);
    EncodedLayout(o);
  }

  /**
   * Round trip between the two ends of a connection: what the encoder sends,
   * with anything after it, the decoder turns back into the payload, and the
   * frame it reports covers exactly the encoder's bytes.
   */
  lemma {:induction false} SecureRoundTrip(e: Cipher, d: Cipher, p: bytes, trailing: bytes)
    requires Partners(e, d, p)
    requires Encrypt(e, p).result.Ok?
    ensures EncodeSecure(e, p).0.Ok? <==> |Encrypt(e, p).result.value| < TWO_32
    ensures EncodeSecure(e, p).0.Ok? ==>
      var sent := EncodeSecure(e, p).0.value;
      var r := DecodeSecure(d, sent + trailing).0;
      r.Ok? && r.value.payload == p && r.value.packetSize == |sent|
      && r.value.payloadSize == |Encrypt(e, p).result.value|
  {
    PartnersRoundTrip(e, d, p);
    var o := Encrypt(e, p);
    if |o.result.value| < TWO_32 {
      RoundTripFrame(o, d, p, trailing);
    } else {
      EncodeFails(o);
    }
  }

  /** A decoder whose cipher is of another class refuses the frame and keeps its state. */
  lemma {:induction false} MismatchRejectedFrame(o: Outcome, d: Cipher)
    requires Assemble(o).0.Ok? && ClassOf(o.after) != ClassOf(d)
    ensures DecodeSecure(d, Assemble(o).0.value) == (Err(CipherTypeMismatch), d)
  {
    EncodeFails(o);
    EncodedLayout(o);
    var h := SecureHeader(o.after).value;
    HeaderPrefix(o.after);
    var s := Layout(h, o.result.value, []);
    LaidOutFrame(o.after, h, o.result.value, []);
    RegistryFinds(ClassOf(o.after));
  }

  /** A decoder whose cipher is of another class than the encoder's refuses the frame and keeps its state. */
  lemma MismatchRejected(e: Cipher, d: Cipher, p: bytes)
    requires EncodeSecure(e, p).0.Ok? && ClassOf(e) != ClassOf(d)
    ensures DecodeSecure(d, EncodeSecure(e, p).0.value) == (Err(CipherTypeMismatch), d)
  {
    MismatchRejectedFrame(Encrypt(e, p), d);
  }

  lemma {:induction false} ParamFieldsPrefix(c: Cipher, i: nat, n: nat, acc: bytes)
    requires ParamFields(c, i, n, acc).Ok?
    ensures |ParamFields(c, i, n, acc).value| >= |acc| && ParamFields(c, i, n, acc).value[..|acc|] == acc
    decreases n - i
  {
    if i < n {
      var v := GetParam(c, i).value;
      var acc' := acc + [Byte(|v|)] + v;
      ParamFieldsPrefix(c, i + 1, n, acc');
      assert acc'[..|acc|] == acc;
    }
  }

  /** Every secure header starts with the cipher's tag and its parameter count. */
  lemma HeaderPrefix(c: Cipher)
    requires SecureHeader(c).Ok?
    ensures |SecureHeader(c).value| >= 3
    ensures SecureHeader(c).value[..2] == Tag(ClassOf(c))
    ensures SecureHeader(c).value[2] as int == NumberOfParams(c)
  {
    var n := NumberOfParams(c);
    var acc := Tag(ClassOf(c)) + [Byte(n)];
    ParamFieldsPrefix(c, 0, n, acc);
    assert SecureHeader(c).value[..3] == acc;
    assert SecureHeader(c).value[..2] == acc[..2];
  }

  /** A frame whose tag bytes name no cipher class is refused, whatever the local cipher. */
  lemma UnknownTagRejected(c: Cipher, packet: bytes)
    requires Packet.Decode(packet).Ok?
    requires forall k :: Tag(k) != Slice(packet, 6, 8)
    ensures DecodeSecure(c, packet) == (Err(CipherTypeMismatch), c)
  {
    RegistryOnlyTags(Slice(packet, 6, 8));
  }

  /**
   * The tag of the abstract base class passes the check for every cipher,
   * since every cipher is an instance of it.
   */
  lemma BaseTagAccepted(c: Cipher, packet: bytes)
    requires Slice(packet, 6, 8) == Tag(BaseCipherClass)
    ensures TagAccepted(c, packet)
  {
    RegistryFinds(BaseCipherClass);
  }

  /** A plain decoder reading a secure frame finds the ciphertext as its payload. */
  lemma PlainDecoderSeesCiphertext(c: Cipher, p: bytes)
    requires EncodeSecure(c, p).0.Ok?
    ensures Packet.Decode(EncodeSecure(c, p).0.value).Ok?
    ensures Packet.Decode(EncodeSecure(c, p).0.value).value.payload == Encrypt(c, p).result.value
  {
    var o := Encrypt(c, p);
    EncodeFails(o);
    EncodedLayout(o);
    Packet.DecodeExtended(SecureHeader(o.after).value, o.result.value, []);
  }
}

/**
 * The plain frame codec: `headerSize:u16 | payloadSize:u32 | payload`, big-endian.
 * The encoder always writes a header size of 6; the decoder trusts whatever
 * header size the frame declares, so that a secure header can sit between the
 * six fixed bytes and the payload.
 */
module Packet {
  import opened Bytes
  import opened Wrappers

  /** Length of the fixed part of the header, `struct.calcsize(">HI")`. */
  const BASE_HEADER_SIZE: nat := 6

  /** The dictionary the decoder returns. */
  datatype Frame = Frame(headerSize: nat, payloadSize: nat, payload: bytes, packetSize: nat)

  /** `PacketEncoder.__call__`. */
  function Encode(payload: bytes): (r: Result<bytes, Error>)
    ensures r.Ok? <==> |payload| < TWO_32
    ensures r.Ok? ==> |r.value| == BASE_HEADER_SIZE + |payload| && r.value[BASE_HEADER_SIZE..] == payload
  {
    if |payload| < TWO_32 then Ok(Be16(BASE_HEADER_SIZE) + Be32(|payload|) + payload)
    else Err(StructError)
  }

  /** `PacketDecoder._decode_header`: the two size fields. */
  function DecodeHeader(packet: bytes): (r: Result<(nat, nat), Error>)
    ensures r.Ok? ==> |packet| >= BASE_HEADER_SIZE && r.value.0 <= |packet|
    ensures |packet| < BASE_HEADER_SIZE ==> r == Err(StructError)
    ensures |packet| >= BASE_HEADER_SIZE ==> (r.Ok? <==> FromBe(packet[..2]) <= |packet|)
    ensures |packet| >= BASE_HEADER_SIZE && |packet| < FromBe(packet[..2]) ==>
      r == Err(CannotExtractPacket("Incomplete header"))
    ensures r.Ok? ==> r.value == (FromBe(packet[..2]), FromBe(packet[2..6]))
  {
    if |packet| < BASE_HEADER_SIZE then Err(StructError)
    else
      var headerSize := FromBe(packet[..2]);
      var payloadSize := FromBe(packet[2..6]);
      if |packet| < headerSize then Err(CannotExtractPacket("Incomplete header"))
      else Ok((headerSize, payloadSize))
  }

  /** `PacketDecoder.__call__`. */
  function Decode(packet: bytes): (r: Result<Frame, Error>)
    ensures r.Ok? ==> r.value.packetSize == r.value.headerSize + r.value.payloadSize <= |packet|
    ensures r.Ok? ==> r.value.payload == packet[r.value.headerSize..r.value.packetSize]
  {
    match DecodeHeader(packet)
    case Err(e) => Err(e)
    case Ok((headerSize, payloadSize)) =>
      if |packet| < headerSize + payloadSize then Err(CannotExtractPacket("Incomplete packet"))
      else
        Ok(Frame(headerSize, payloadSize, packet[headerSize..headerSize + payloadSize],
                 headerSize + payloadSize))
  }

  /**
   * What the decoder does with any input of at least six bytes: a header
   * size beyond the input is an incomplete header, a payload beyond it an
   * incomplete packet, and otherwise the frame is the declared slice.
   */
  lemma DecodeCases(packet: bytes)
    requires |packet| >= BASE_HEADER_SIZE
    ensures var hs, ps := FromBe(packet[..2]), FromBe(packet[2..6]);
      (|packet| < hs ==> Decode(packet) == Err(CannotExtractPacket("Incomplete header"))) &&
      (hs <= |packet| < hs + ps ==> Decode(packet) == Err(CannotExtractPacket("Incomplete packet"))) &&
      (hs + ps <= |packet| ==> Decode(packet) == Ok(Frame(hs, ps, packet[hs..hs + ps], hs + ps)))
  {}

  /** The two size fields of an encoded frame read back as 6 and the payload length. */
  lemma {:induction false} EncodedHeader(payload: bytes, rest: bytes)
    requires |payload| < TWO_32
    ensures var s := Encode(payload).value + rest;
      FromBe(s[..2]) == BASE_HEADER_SIZE && FromBe(s[2..6]) == |payload|
  {
    var s := Encode(payload).value + rest;
    assert s[..2] == Be16(BASE_HEADER_SIZE);
    assert s[2..6] == Be32(|payload|);
    FromBeBe16(BASE_HEADER_SIZE);
    FromBeBe32(|payload|);
  }

  /** Round trip, and bytes after the frame are ignored. */
  lemma {:induction false} DecodeEncode(payload: bytes, trailing: bytes)
    requires |payload| < TWO_32
    ensures Decode(Encode(payload).value + trailing)
         == Ok(Frame(BASE_HEADER_SIZE, |payload|, payload, BASE_HEADER_SIZE + |payload|))
  {
    var s := Encode(payload).value + trailing;
    EncodedHeader(payload, trailing);
    assert s[BASE_HEADER_SIZE..BASE_HEADER_SIZE + |payload|] == payload;
  }

  /** A truncated frame of at least six bytes never yields a payload. */
  lemma {:induction false} DecodeTruncated(payload: bytes, k: nat)
    requires |payload| < TWO_32
    requires BASE_HEADER_SIZE <= k < BASE_HEADER_SIZE + |payload|
    ensures Decode(Encode(payload).value[..k]) == Err(CannotExtractPacket("Incomplete packet"))
  {
    var e := Encode(payload).value;
    EncodedHeader(payload, []);
    assert e + [] == e;
    assert e[..k][..2] == e[..2] && e[..k][2..6] == e[2..6];
  }

  /** Fewer than six bytes fail inside `struct.unpack`, not with CannotExtractPacket. */
  lemma ShortInput(packet: bytes)
    requires |packet| < BASE_HEADER_SIZE
    ensures Decode(packet) == Err(StructError)
  {}

  /** A frame is decided by its first `packetSize` bytes. */
  lemma {:induction false} DecodePrefix(packet: bytes, more: bytes)
    requires Decode(packet).Ok?
    ensures Decode(packet + more) == Decode(packet)
  {
    var s := packet + more;
    assert s[..2] == packet[..2] && s[2..6] == packet[2..6];
    var f := Decode(packet).value;
    assert s[f.headerSize..f.packetSize] == packet[f.headerSize..f.packetSize];
  }

  /**
   * A frame that fills its bytes exactly cannot be decoded from a strict
   * prefix: the prefix is too short for the header fields, for the declared
   * header, or for the payload.
   */
  lemma {:induction false} DecodeStrictPrefix(packet: bytes, k: nat)
    requires Decode(packet).Ok? && Decode(packet).value.packetSize == |packet| && k < |packet|
    ensures Decode(packet[..k]).Err?
    ensures k < BASE_HEADER_SIZE ==> Decode(packet[..k]) == Err(StructError)
    ensures k >= BASE_HEADER_SIZE ==> Decode(packet[..k]).error.CannotExtractPacket?
  {
    if k >= BASE_HEADER_SIZE {
      var s := packet[..k];
      assert s[..2] == packet[..2] && s[2..6] == packet[2..6];
    }
  }

  /**
   * A frame whose header carries `extra` bytes after the six fixed ones, as the
   * secure encoder writes it: the plain decoder skips them and finds the payload.
   */
  lemma {:induction false} DecodeExtended(extra: bytes, payload: bytes, trailing: bytes)
    requires BASE_HEADER_SIZE + |extra| < TWO_16 && |payload| < TWO_32
    ensures var hs := BASE_HEADER_SIZE + |extra|;
      Decode(Be16(hs) + Be32(|payload|) + extra + payload + trailing)
        == Ok(Frame(hs, |payload|, payload, hs + |payload|))
  {
    var hs := BASE_HEADER_SIZE + |extra|;
    var s := Be16(hs) + Be32(|payload|) + extra + payload + trailing;
    assert s[..2] == Be16(hs);
    assert s[2..6] == Be32(|payload|);
    FromBeBe16(hs);
    FromBeBe32(|payload|);
    assert s[hs..hs + |payload|] == payload;
  }
}

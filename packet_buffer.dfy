/**
 * The stream reassembly buffer: a queue of received chunks and an
 * accumulator. Each `pop` moves the oldest chunk into the accumulator and
 * tries to decode a frame from it.
 */
module PacketBuffers {
  import opened Bytes
  import opened Wrappers
  import Packet
  import opened CipherSuite
  import SecurePacket

  /** The decoder a buffer was built with, as a value: none, the plain codec, or the secure codec with its cipher. */
  datatype Mode = Raw | Plain | Secure(cipher: Cipher)

  /** The result of one `pop` and the state after it. */
  datatype PopOutcome = PopOutcome(result: Result<bytes, Error>, buffer: seq<bytes>, current: bytes, mode: Mode)

  /** Calling the buffer's decoder: the frame and the decoder's state after the call. */
  function DecodeWith(mode: Mode, packet: bytes): (Result<Packet.Frame, Error>, Mode)
    requires !mode.Raw?
  {
    match mode
    case Plain => (Packet.Decode(packet), Plain)
    case Secure(c) =>
      var d := SecurePacket.DecodeSecure(c, packet);
      (d.0, Secure(d.1))
  }

  /** The exceptions `pop` re-raises; every other one becomes an empty result. */
  predicate Propagates(e: Error)
  {
    IsSecurePacketException(e) || IsPacketException(e) || IsCipherException(e)
  }

  /** `PacketBuffer.pop`. */
  function PopStep(mode: Mode, buffer: seq<bytes>, current: bytes): PopOutcome
  {
    if |buffer| == 0 then PopOutcome(Ok([]), buffer, current, mode)
    else
      var acc := current + buffer[0];
      var rest := buffer[1..];
      if mode.Raw? then PopOutcome(Ok(acc), rest, [], mode)
      else
        var d := DecodeWith(mode, acc);
        match d.0
        case Err(e) => PopOutcome(if Propagates(e) then Err(e) else Ok([]), rest, acc, d.1)
        case Ok(frame) =>
          if frame.packetSize < |acc| then PopOutcome(Ok([]), rest, acc, d.1)  // PacketBufferOverflow, swallowed
          else PopOutcome(Ok(frame.payload), rest, [], d.1)
  }

  /** The decoder object a buffer holds. */
  datatype Decoder = NoDecoder | PlainDecoder | SecureDecoder(dec: SecurePacket.SecurePacketDecoder)

  class PacketBuffer {
    var buffer: seq<bytes>
    var current: bytes
    const decoder: Decoder

    /** The objects a `pop` may change besides the buffer: the secure decoder's cipher. */
    function Footprint(): set<object>
    {
      if decoder.SecureDecoder? then {decoder.dec.cipher} else {}
    }

    function ModeOf(): Mode
      reads Footprint()
    {
      match decoder
      case NoDecoder => Raw
      case PlainDecoder => Plain
      case SecureDecoder(dec) => Secure(dec.cipher.state)
    }

    constructor (decoder: Decoder)
      ensures this.decoder == decoder && buffer == [] && current == []
    {
      this.decoder := decoder;
      buffer := [];
      current := [];
    }

    method Push(packet: bytes)
      modifies this
      ensures buffer == old(buffer) + [packet] && current == old(current)
    {
      buffer := buffer + [packet];
    }

    method Pop() returns (r: Result<bytes, Error>)
      modifies this, Footprint()
      ensures PopOutcome(r, buffer, current, ModeOf()) == PopStep(old(ModeOf()), old(buffer), old(current))
    {
      if |buffer| == 0 {
        return Ok([]);
      }
      current := current + buffer[0];
      buffer := buffer[1..];
      if decoder.NoDecoder? {
        r := Ok(current);
        current := [];
        return;
      }
      var frame: Result<Packet.Frame, Error>;
      if decoder.PlainDecoder? {
        frame := Packet.Decode(current);
      } else {
        frame := decoder.dec.Decode(current);
      }
      if frame.Err? {
        r := if Propagates(frame.error) then Err(frame.error) else Ok([]);
        return;
      }
      if frame.value.packetSize < |current| {
        return Ok([]);
      }
      current := [];
      r := Ok(frame.value.payload);
    }

    /** `len(buffer)`: the number of queued chunks, not of accumulated bytes. */
    method Len() returns (n: nat)
      ensures n == |buffer|
    {
      n := |buffer|;
    }
  }
}

/** What a sequence of `pop` calls does with chunks that together carry one frame. */
module PacketBufferLaws {
  import opened Bytes
  import opened Wrappers
  import Packet
  import opened CipherSuite
  import CipherLaws
  import SecurePacket
  import SecurePacketLaws
  import opened PacketBuffers

  /** The chunks joined in order. */
  function Concat(chunks: seq<bytes>): bytes
  {
    if chunks == [] then [] else Concat(chunks[..|chunks| - 1]) + chunks[|chunks| - 1]
  }

  /** `n` successive pops; the outcome of the last one. */
  function Pops(mode: Mode, buffer: seq<bytes>, current: bytes, n: nat): PopOutcome
    requires n >= 1
    decreases n
  {
    var o := PopStep(mode, buffer, current);
    if n == 1 then o else Pops(o.mode, o.buffer, o.current, n - 1)
  }

  /* ---------------- one pop ---------------- */

  /** A pop takes exactly the oldest chunk, and an empty queue changes nothing. */
  lemma PopTakesOldest(mode: Mode, buffer: seq<bytes>, current: bytes)
    ensures |buffer| == 0 ==> PopStep(mode, buffer, current) == PopOutcome(Ok([]), buffer, current, mode)
    ensures |buffer| > 0 ==> PopStep(mode, buffer, current).buffer == buffer[1..]
  {}

  /** Without a decoder, a pop returns everything accumulated and empties the accumulator. */
  lemma RawPop(buffer: seq<bytes>, current: bytes)
    requires |buffer| > 0
    ensures PopStep(Raw, buffer, current) == PopOutcome(Ok(current + buffer[0]), buffer[1..], [], Raw)
  {}

  /** The frame a secure decoder reports is the one the plain decoder finds in the same bytes. */
  lemma SecureFrame(c: Cipher, packet: bytes)
    ensures Packet.Decode(packet).Err? ==> SecurePacket.DecodeSecure(c, packet) == (Err(Packet.Decode(packet).error), c)
    ensures SecurePacket.DecodeSecure(c, packet).0.Ok? ==>
      Packet.Decode(packet).Ok? &&
      SecurePacket.DecodeSecure(c, packet).0.value == Packet.Decode(packet).value.(payload := SecurePacket.DecodeSecure(c, packet).0.value.payload)
  {}

  /** A decoded frame never claims more bytes than it was given. */
  lemma FrameWithin(mode: Mode, packet: bytes)
    requires !mode.Raw? && DecodeWith(mode, packet).0.Ok?
    ensures DecodeWith(mode, packet).0.value.packetSize <= |packet|
  {
    if mode.Secure? {
      SecureFrame(mode.cipher, packet);
    }
  }

  /**
   * With a decoder, a pop empties the accumulator exactly when the bytes
   * gathered so far are one whole frame (or when there were none); an error
   * is one of the re-raised kinds and leaves the accumulator holding the
   * new chunk.
   */
  lemma {:induction false} PopWithDecoder(mode: Mode, buffer: seq<bytes>, current: bytes)
    requires !mode.Raw? && |buffer| > 0
    ensures var acc := current + buffer[0];
      var d := DecodeWith(mode, acc);
      var o := PopStep(mode, buffer, current);
      o.mode == d.1 &&
      (o.current == [] <==> acc == [] || (d.0.Ok? && d.0.value.packetSize == |acc|)) &&
      (o.current != [] ==> o.current == acc) &&
      (o.result.Err? <==> d.0.Err? && Propagates(d.0.error)) &&
      (o.result.Err? ==> o.result.error == d.0.error) &&
      (d.0.Ok? && d.0.value.packetSize == |acc| ==> o.result == Ok(d.0.value.payload))
  {
    var acc := current + buffer[0];
    if DecodeWith(mode, acc).0.Ok? {
      FrameWithin(mode, acc);
    }
  }

  /** A frame shorter than the accumulator is an overflow: the pop returns nothing and keeps the accumulator. */
  lemma Overflow(mode: Mode, buffer: seq<bytes>, current: bytes)
    requires !mode.Raw? && |buffer| > 0
    requires var d := DecodeWith(mode, current + buffer[0]).0;
      d.Ok? && d.value.packetSize < |current + buffer[0]|
    ensures PopStep(mode, buffer, current).result == Ok([])
    ensures PopStep(mode, buffer, current).current == current + buffer[0]
  {}

  /** The plain decoder finds a whole frame at the head of the bytes, and more bytes after it. */
  ghost predicate Overflowed(current: bytes)
  {
    Packet.Decode(current).Ok? && Packet.Decode(current).value.packetSize < |current|
  }

  /**
   * Once the plain decoder's accumulator holds a frame and more, no later
   * pop returns anything or empties it: every chunk is appended to it.
   */
  lemma {:induction false} StickyOverflow(chunks: seq<bytes>, rest: seq<bytes>, current: bytes)
    requires Overflowed(current) && |chunks| >= 1
    ensures Pops(Plain, chunks + rest, current, |chunks|) == PopOutcome(Ok([]), rest, current + Concat(chunks), Plain)
    decreases |chunks|
  {
    var buffer := chunks + rest;
    assert buffer[0] == chunks[0];
    ConcatCons(chunks);
    if |chunks| > 1 {
      assert buffer[1..] == chunks[1..] + rest;
      assert current + Concat(chunks) == current + chunks[0] + Concat(chunks[1..]);
      OverflowGrows(current, chunks[0]);
      StickyOverflow(chunks[1..], rest, current + chunks[0]);
      StickyPops(buffer, current, |chunks|);
    } else {
      StickyStep(buffer, current);
      assert buffer[1..] == rest && chunks[1..] == [];
    }
  }

  /** Bytes appended to an overflowed plain accumulator leave it overflowed. */
  lemma OverflowGrows(current: bytes, chunk: bytes)
    requires Overflowed(current)
    ensures Overflowed(current + chunk)
  {
    Packet.DecodePrefix(current, chunk);
  }

  /** Over an overflowed plain accumulator, the first of several pops only appends the oldest chunk. */
  lemma StickyPops(buffer: seq<bytes>, current: bytes, n: nat)
    requires Overflowed(current) && |buffer| > 0 && n >= 2
    ensures Pops(Plain, buffer, current, n) == Pops(Plain, buffer[1..], current + buffer[0], n - 1)
  {
    StickyStep(buffer, current);
  }

  /** One pop over an overflowed plain accumulator: nothing is returned and the overflow remains. */
  lemma StickyStep(buffer: seq<bytes>, current: bytes)
    requires Overflowed(current) && |buffer| > 0
    ensures PopStep(Plain, buffer, current) == PopOutcome(Ok([]), buffer[1..], current + buffer[0], Plain)
  {
    Packet.DecodePrefix(current, buffer[0]);
  }

  /** Joining chunks front first. */
  lemma {:induction false} ConcatCons(chunks: seq<bytes>)
    requires |chunks| > 0
    ensures Concat(chunks) == chunks[0] + Concat(chunks[1..])
    decreases |chunks|
  {
    if |chunks| > 1 {
      var init := chunks[..|chunks| - 1];
      ConcatCons(init);
      assert init[1..] == chunks[1..][..|chunks[1..]| - 1];
    } else {
      assert chunks[..0] == [];
      assert chunks[1..] == [];
    }
  }

  /** Joining the first `j` chunks gives a prefix of joining them all, and a strict one when a non-empty chunk follows. */
  lemma {:induction false} ConcatPrefix(chunks: seq<bytes>, j: nat)
    requires j < |chunks|
    ensures var pre := Concat(chunks[..j]);
      |pre| + |chunks[|chunks| - 1]| <= |Concat(chunks)| && Concat(chunks)[..|pre|] == pre
    decreases |chunks|
  {
    var init := chunks[..|chunks| - 1];
    assert chunks[..|chunks| - 1] == init;
    if j < |chunks| - 1 {
      ConcatPrefix(init, j);
      assert init[..j] == chunks[..j];
      assert Concat(chunks)[..|Concat(init)|] == Concat(init);
    }
  }

  /** The bytes are not yet a frame for the decoder, and trying them leaves the decoder as it was. */
  ghost predicate Incomplete(mode: Mode, s: bytes)
    requires !mode.Raw?
  {
    DecodeWith(mode, s).0.Err? && DecodeWith(mode, s).1 == mode
  }

  /**
   * The chunks, joined, are exactly one frame for the decoder, no strict
   * prefix of it decodes or changes the decoder, and the last chunk is not empty.
   */
  ghost predicate SplitFrame(mode: Mode, chunks: seq<bytes>)
  {
    !mode.Raw? && |chunks| > 0 && |chunks[|chunks| - 1]| > 0 &&
    (forall k {:trigger Incomplete(mode, Concat(chunks)[..k])} ::
      0 <= k < |Concat(chunks)| ==> Incomplete(mode, Concat(chunks)[..k])) &&
    DecodeWith(mode, Concat(chunks)).0.Ok? &&
    DecodeWith(mode, Concat(chunks)).0.value.packetSize == |Concat(chunks)|
  }

  /** Popping the chunks of one frame, one after another, from `chunks[j..]` on. */
  lemma {:induction false} ReassemblyFrom(mode: Mode, chunks: seq<bytes>, rest: seq<bytes>, j: nat)
    requires SplitFrame(mode, chunks) && j < |chunks|
    ensures Pops(mode, chunks[j..] + rest, Concat(chunks[..j]), |chunks| - j)
         == PopOutcome(Ok(DecodeWith(mode, Concat(chunks)).0.value.payload), rest, [],
                       DecodeWith(mode, Concat(chunks)).1)
    decreases |chunks| - j
  {
    if j == |chunks| - 1 {
      PopLastChunk(mode, chunks, rest);
    } else {
      MidFramePops(mode, chunks, rest, j);
      ReassemblyFrom(mode, chunks, rest, j + 1);
    }
  }

  /** The pops from a chunk before the frame's last one are the pops from the next chunk on, one fewer. */
  lemma MidFramePops(mode: Mode, chunks: seq<bytes>, rest: seq<bytes>, j: nat)
    requires SplitFrame(mode, chunks) && j + 1 < |chunks|
    ensures Pops(mode, chunks[j..] + rest, Concat(chunks[..j]), |chunks| - j)
         == Pops(mode, chunks[j + 1..] + rest, Concat(chunks[..j + 1]), |chunks| - j - 1)
  {
    PopMidFrame(mode, chunks, rest, j);
    PopsNext(mode, chunks[j..] + rest, Concat(chunks[..j]), |chunks| - j);
  }

  lemma PopsNext(mode: Mode, buffer: seq<bytes>, current: bytes, n: nat)
    requires n >= 2
    ensures var o := PopStep(mode, buffer, current);
      Pops(mode, buffer, current, n) == Pops(o.mode, o.buffer, o.current, n - 1)
  {}

  /** A pop before the frame's last chunk keeps the bytes gathered so far and leaves the decoder as it was. */
  lemma PopMidFrame(mode: Mode, chunks: seq<bytes>, rest: seq<bytes>, j: nat)
    requires SplitFrame(mode, chunks) && j + 1 < |chunks|
    ensures var o := PopStep(mode, chunks[j..] + rest, Concat(chunks[..j]));
      o.buffer == chunks[j + 1..] + rest && o.current == Concat(chunks[..j + 1]) && o.mode == mode
  {
    var buffer := chunks[j..] + rest;
    assert buffer[0] == chunks[j] && buffer[1..] == chunks[j + 1..] + rest;
    assert chunks[..j + 1][..j] == chunks[..j];
    ConcatPrefix(chunks, j + 1);
    assert Concat(chunks)[..|Concat(chunks[..j + 1])|] == Concat(chunks[..j + 1]);
    assert Incomplete(mode, Concat(chunks)[..|Concat(chunks[..j + 1])|]);
  }

  /** The pop of the frame's last chunk returns its payload and empties the accumulator. */
  lemma PopLastChunk(mode: Mode, chunks: seq<bytes>, rest: seq<bytes>)
    requires SplitFrame(mode, chunks)
    ensures PopStep(mode, chunks[|chunks| - 1..] + rest, Concat(chunks[..|chunks| - 1]))
         == PopOutcome(Ok(DecodeWith(mode, Concat(chunks)).0.value.payload), rest, [],
                       DecodeWith(mode, Concat(chunks)).1)
  {
    var buffer := chunks[|chunks| - 1..] + rest;
    assert buffer[0] == chunks[|chunks| - 1] && buffer[1..] == rest;
  }

  /**
   * Popping the chunks of one frame, one after another: the pop of the last
   * chunk returns the frame's payload and empties the accumulator, and the
   * chunks queued after it are untouched.
   */
  lemma Reassembly(mode: Mode, chunks: seq<bytes>, rest: seq<bytes>)
    requires SplitFrame(mode, chunks)
    ensures Pops(mode, chunks + rest, [], |chunks|)
         == PopOutcome(Ok(DecodeWith(mode, Concat(chunks)).0.value.payload), rest, [],
                       DecodeWith(mode, Concat(chunks)).1)
  {
    ReassemblyFrom(mode, chunks, rest, 0);
    assert chunks[0..] == chunks && chunks[..0] == [];
  }

  /**
   * A plain frame split into chunks in any way (ending with a non-empty one):
   * the pop of the last chunk returns the payload and empties the
   * accumulator, and the chunks queued after it are untouched.
   */
  lemma PlainReassembly(p: bytes, chunks: seq<bytes>, rest: seq<bytes>)
    requires |p| < TWO_32 && |chunks| > 0 && |chunks[|chunks| - 1]| > 0
    requires Concat(chunks) == Packet.Encode(p).value
    ensures Pops(Plain, chunks + rest, [], |chunks|) == PopOutcome(Ok(p), rest, [], Plain)
  {
    var s := Packet.Encode(p).value;
    Packet.DecodeEncode(p, []);
    assert s + [] == s;
    forall k | 0 <= k < |s| ensures Incomplete(Plain, s[..k]) {
      Packet.DecodeStrictPrefix(s, k);
    }
    assert SplitFrame(Plain, chunks);
    Reassembly(Plain, chunks, rest);
  }

  /**
   * A secure frame split into chunks: between partner ciphers, the pop of
   * the last chunk returns the plaintext and empties the accumulator.
   * The pops before it fail in the plain codec, so they leave the cipher as it was.
   */
  lemma SecureReassembly(e: Cipher, d: Cipher, p: bytes, chunks: seq<bytes>, rest: seq<bytes>)
    requires CipherLaws.Partners(e, d, p) && Encrypt(e, p).result.Ok?
    requires SecurePacket.EncodeSecure(e, p).0.Ok?
    requires |chunks| > 0 && |chunks[|chunks| - 1]| > 0
    requires Concat(chunks) == SecurePacket.EncodeSecure(e, p).0.value
    ensures var o := Pops(Secure(d), chunks + rest, [], |chunks|);
      o.result == Ok(p) && o.buffer == rest && o.current == []
  {
    SecureSplit(e, d, p, chunks);
    Reassembly(Secure(d), chunks, rest);
  }

  /** Chunks that together carry one secure frame split it as Reassembly needs, and the frame's payload is the plaintext. */
  lemma SecureSplit(e: Cipher, d: Cipher, p: bytes, chunks: seq<bytes>)
    requires CipherLaws.Partners(e, d, p) && Encrypt(e, p).result.Ok?
    requires SecurePacket.EncodeSecure(e, p).0.Ok?
    requires |chunks| > 0 && |chunks[|chunks| - 1]| > 0
    requires Concat(chunks) == SecurePacket.EncodeSecure(e, p).0.value
    ensures SplitFrame(Secure(d), chunks) && DecodeWith(Secure(d), Concat(chunks)).0.value.payload == p
  {
    var s := Concat(chunks);
    assert s + [] == s;
    SecurePacketLaws.SecureRoundTrip(e, d, p, []);
    SecureWhole(d, chunks);
  }

  /** Chunks whose join is one whole secure frame for the decoder split it as Reassembly needs. */
  lemma SecureWhole(d: Cipher, chunks: seq<bytes>)
    requires |chunks| > 0 && |chunks[|chunks| - 1]| > 0
    requires SecurePacket.DecodeSecure(d, Concat(chunks)).0.Ok?
    requires SecurePacket.DecodeSecure(d, Concat(chunks)).0.value.packetSize == |Concat(chunks)|
    ensures SplitFrame(Secure(d), chunks)
  {
    SecurePrefixesFail(d, Concat(chunks));
  }

  /** The strict prefixes of a whole secure frame fail in the plain codec and leave the cipher as it was. */
  lemma SecurePrefixesFail(d: Cipher, s: bytes)
    requires SecurePacket.DecodeSecure(d, s).0.Ok? && SecurePacket.DecodeSecure(d, s).0.value.packetSize == |s|
    ensures forall k :: 0 <= k < |s| ==> Incomplete(Secure(d), s[..k])
  {
    SecureFrame(d, s);
    forall k | 0 <= k < |s| ensures Incomplete(Secure(d), s[..k]) {
      Packet.DecodeStrictPrefix(s, k);
      SecureFrame(d, s[..k]);
    }
  }
}

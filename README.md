# SecureFTP: the frame codecs, the ciphers and the transfer schemes

This project is a Dafny model of the core of SecureFTP. SecureFTP is a small
file-transfer system in Python with two layers that can be stated exactly.

**Wire framing.**
- `Packet.py` is a length-delimited frame codec. Every frame is
  `header size:u16 | payload size:u32 | payload`, big-endian.
- `SecurePacket.py` adds a secure header after the six fixed bytes:
  the cipher's 2-byte tag, a parameter count, and one `size:u8 | bytes` field
  per parameter. It also rewrites the header size.
  - On decoding, the tag is checked against the cipher registry.
  - Each parameter is then installed in the local cipher, and the payload is decrypted.
- `PacketBuffer.py` is the reassembly queue. It joins the received chunks until they form one frame.

**Ciphers.** `Cipher.py` defines four ciphers and the tag registry:
- `NoCipher`, the identity;
- `XorCipher`, whose output is the UTF-8 of `chr(byte ^ key ^ iv)`;
- `AES_CTR`, with its key and nonce checks and a one-message-per-nonce context;
- `SimpleSSL`, which appends a hash and checks it on decryption;
- `hash_name`, the 2-byte XOR-fold tag that names a cipher class on the wire;
- `cipher_from_hash`, the registry.

**Transfer schemes.** A scheme is one side of a transfer: the sender or the
receiver. Two generations of scheme pairs are modelled.
- The current one is `src/sft/protocol/sender.py` and `receiver.py`. It uses
  token checks, an info dictionary and a size-based offset.
- The earlier one is `sender_scheme.py` and `receiver_scheme.py`. It has a
  configured token and an explicit byte counter.

In both generations, the receiver asks for chunks with REQUIRE (offset and
buffer size) and the sender answers with SEND. A chunk at the wrong offset is
asked for again, up to a budget of three tries. The finished copy is checked
against the digest announced in INFO.

How the model is built:
- **Pure code** is written as functions on values:
  - the codecs (`Packet`, `SecurePacket`);
  - the cipher transforms (`CipherSuite`);
  - every handler (`Receiver.OnSend`, `Sender.OnRequire`, …).
- **Objects the source mutates** are classes whose methods are proved equal to those functions:
  - the shared cipher object (`CipherObjects.CipherObject`);
  - the reassembly buffer (`PacketBuffers.PacketBuffer`);
  - the secure encoder and decoder;
  - the four scheme classes.
- **Loops** are methods with loop invariants:
  - XorCipher's encryption loop;
  - `hash_name`'s fold;
  - the secure header's parameter loops.
- **Laws** prove what the source promises: round trips, error cases, the retry
  budget, digest-checked completion and the layout of the INFO and REQUIRE
  payloads. They live in the `*Laws` modules; `Session` and `LegacySession`
  compose a receiver with a sender.

Bytes are `bv8` and integers are unbounded. Every 16- and 32-bit field states
its own bound explicitly: a failing `struct.pack` or `int.to_bytes` becomes an
error value. Python's clamped slices are `Bytes.Slice` and `Bytes.From`. An
exception that escapes a handler becomes `Raised(name)`. The framework's
`ignore` becomes `Ignored`.

## Model

| member | source | states |
|---|---|---|
| Bytes.Slice | Packet.py:54 | Python's `s[i:j]`: both ends clamped to the length, and the exact range when it lies inside |
| Bytes.FromBeBe16 | SecurePacket.py:35-38 | a 16-bit field unpacks to the number packed |
| Bytes.FromBeBe32 | Packet.py:21-30 | a 32-bit field unpacks to the number packed |
| Bytes.FromBeBound4 | src/sft/protocol/receiver.py:192 | `int.from_bytes` of at most four bytes is below 2^32 |
| Utf8.EncodeCodePoint | Cipher.py:83 | `chr(cp).encode()` takes one to four bytes, exactly one when cp < 128 |
| Utf8.DecodeOneEncode | src/sft/protocol/receiver.py:195 | strict decoding reads back one encoded character, whatever follows it |
| Utf8.DecodeEncode | src/sft/protocol/receiver.py:195 | `s.encode().decode() == s` for every string without lone surrogates (Dafny's `char` has none) |
| Utf8.EncodeLength | src/sft/protocol/sender.py:115-116 | a string encodes to as many bytes as it has characters exactly when it is ASCII |
| Utf8.Encode | src/sft/protocol/sender.py:115-116 | `s.encode()` never has fewer bytes than `s` has characters |
| Utf8.EncodeAscii | src/sft/protocol/sender.py:115-116 | an ASCII character encodes as the byte of its code |
| Scheme.U32 | src/sft/protocol/receiver.py:176-177 | `n.to_bytes(4, "big")` succeeds exactly when n < 2^32, and the four bytes read back as n |
| Scheme.ReadWritten | src/sft/protocol/receiver.py:192-205 | a 4-byte field is read back at the offset where it was written, whatever surrounds it |
| Scheme.ReadBound | src/sft/protocol/receiver.py:243 | every field read is below 2^32, so writing it back cannot overflow |
| Scheme.BaseNameSuffix | src/sft/protocol/receiver.py:218 | `os.path.split(path)[1]` is the separator-free tail of the path, and a path without a separator is its own base name |
| Transfer.InfoPayload | src/sft/protocol/sender.py:107-123 | INFO can be built exactly when the name length, the digest length and the file size all fit in 32 bits |
| Transfer.RequirePayload | src/sft/protocol/receiver.py:175-183 | REQUIRE can be built exactly when the offset and the buffer size fit in 32 bits |
| Transfer.InfoFieldsAt | src/sft/protocol/sender.py:115-121 | the payload has length 12 + name + digest, and its three fields read back where they were written |
| Transfer.ReadInfoSteps | src/sft/protocol/receiver.py:190-205 | the receiver's cursor reading gives the name bytes, the digest and the size its fields hold, and stops after the last field |
| Transfer.InfoRoundTrip | src/sft/protocol/receiver.py:190-207 | for an ASCII name, the receiver reads exactly the sender's name, digest and size, no byte is left over, and the name decodes back |
| Transfer.InfoLengthField | src/sft/protocol/sender.py:115-116 | the name-length field equals the name's byte count exactly when the name is ASCII |
| Transfer.NameBytesRead | src/sft/protocol/receiver.py:192-195 | the receiver takes as many name bytes as the name has characters: a prefix of its encoding |
| Transfer.NonAsciiNameUnreadable | src/sft/protocol/receiver.py:195 | for the name "é" the receiver takes the single byte 0xC3, which does not decode |
| Transfer.RequireRoundTrip | src/sft/protocol/sender.py:187-191 | the sender reads back the offset and the buffer size the receiver wrote in REQUIRE |
| Transfer.OffsetRoundTrip | src/sft/protocol/receiver.py:243 | the receiver reads back the offset the SEND option carries |
| Packet.Encode | Packet.py:18-23 | encoding succeeds exactly when the payload is below 2^32 bytes, adding six header bytes before the payload |
| Packet.DecodeHeader | Packet.py:26-38 | fewer than six bytes are a `struct` error; from six bytes on the header is read exactly when the declared header size is within the input, which gives the two size fields, and otherwise it fails with CannotExtractPacket("Incomplete header") |
| Packet.DecodeCases | Packet.py:30-55 | for any input of at least six bytes: a header size beyond it gives "Incomplete header", a payload beyond it "Incomplete packet", and otherwise the frame is the declared slice with its sizes |
| Packet.Decode | Packet.py:40-57 | a decoded frame's size is header size + payload size, within the input, and its payload is that slice |
| Packet.EncodedHeader | Packet.py:18-21 | the size fields of an encoded frame read 6 and the payload length |
| Packet.DecodeEncode | Packet.py:18-57 | decoding an encoded frame, with any bytes after it, gives header size 6, the payload and packet size 6 + length |
| Packet.DecodeTruncated | Packet.py:50-51 | a truncated frame of at least six bytes fails with "Incomplete packet" |
| Packet.ShortInput | Packet.py:30 | fewer than six bytes fail inside `struct.unpack`, not with CannotExtractPacket |
| Packet.DecodePrefix | Packet.py:53-55 | bytes after a frame do not change what is decoded |
| Packet.DecodeStrictPrefix | Packet.py:30-51 | no strict prefix of an exact frame decodes: below six bytes a `struct` error, otherwise CannotExtractPacket |
| Packet.DecodeExtended | Packet.py:30-55 | with extra header bytes, as the secure encoder writes them, the plain decoder skips them and finds the payload |
| CipherSuite.NewXorCipher | Cipher.py:61-66 | XorCipher is built exactly from a 1-byte key, with no IV yet |
| CipherSuite.NewAesCtr | Cipher.py:118-121 | AES_CTR is built exactly from a 16-, 24-, 32- or 64-byte key, with no nonce yet |
| CipherSuite.NewSimpleSsl | Cipher.py:186-190 | SimpleSSL copies its inner cipher's parameter count |
| CipherSuite.ResetKey | Cipher.py:39-126 | XorCipher accepts exactly a 1-byte key and AES_CTR exactly a valid key length; NoCipher stays as it is; SimpleSSL succeeds exactly when its inner cipher does; the parameter count is kept |
| CipherSuite.SetParam | Cipher.py:93-171 | setting a parameter never changes the parameter count; for AES_CTR it succeeds exactly for index 0, a 16-byte nonce and a key CTR mode accepts (128, 192 or 256 bits), and a 512-bit key raises ValueError when the contexts are built at line 167 |
| CipherSuite.FailedSetParam | Cipher.py:158-171 | a failed `set_param` changes nothing, except that AES_CTR's refused key leaves the new nonce stored (line 166) with the earlier contexts; class and parameter count are kept |
| CipherSuite.ResetParams | Cipher.py:111-183 | with the random bytes given, `reset_params` is `set_param(0, random)` (NoCipher: no change): on success it reports True except for AES_CTR, whose `set_param` returns None, and a raising `set_param` (AES_CTR's 512-bit key) makes it raise with the state `FailedSetParam` leaves |
| CipherSuite.XorEncrypt | Cipher.py:81-85 | the encryption loop builds exactly the concatenated UTF-8 of every masked byte |
| CipherSuite.CtrApply | Cipher.py:135-137 | the CTR transform keeps the length |
| CipherSuite.Encrypt | Cipher.py:43-199 | a failed encryption leaves the cipher unchanged, and the class and parameter count never change |
| CipherSuite.Decrypt | Cipher.py:46-208 | decryption never changes the parameter count |
| CipherSuite.ClassName | Cipher.py:223 | every class name encodes to between 1 and 255 bytes |
| CipherSuite.ComputeHashName | Cipher.py:224-230 | the loop over the name's bytes computes `hash_name` |
| CipherSuite.HashName | Cipher.py:224-230 | the tag has two bytes whose XOR is the name's length |
| CipherSuite.RunEncrypt | Cipher.py:43-199 | encryption run on a cipher value, loops included, gives the specified outcome |
| CipherSuite.RunDecrypt | Cipher.py:46-208 | decryption run on a cipher value, loops included, gives the specified outcome |
| CipherObjects.CipherObject.ResetKey | Cipher.py:39-193 | the object's state becomes the new cipher on success, returning `reset_key`'s True or None as a flag, and is unchanged on failure |
| CipherObjects.CipherObject.SetParam | Cipher.py:93-171 | the object's state becomes the cipher with the parameter set, or on failure the state `FailedSetParam` leaves, with the raised error |
| CipherObjects.CipherObject.GetParam | Cipher.py:105-177 | returns the parameter of the current state |
| CipherObjects.CipherObject.ResetParams | Cipher.py:111-183 | the flag or the raised error, and the new state, are those of `reset_params` |
| CipherObjects.CipherObject.Encrypt | Cipher.py:74-199 | the result and the new state are those of the cipher's encryption |
| CipherObjects.CipherObject.Decrypt | Cipher.py:87-208 | the result and the new state are those of the cipher's decryption |
| CipherLaws.XorBytesAppend | Cipher.py:81-85 | the XOR transform of a concatenation is the concatenation of the transforms |
| CipherLaws.XorBytesLength | Cipher.py:81-85 | the transform never shrinks, and keeps the length exactly when every masked byte is below 128 |
| CipherLaws.XorBytesNarrow | Cipher.py:81-85 | when every masked byte is below 128, the transform is byte-for-byte XOR |
| CipherLaws.MaskTwice | Cipher.py:83 | masking a byte twice with key and IV gives it back |
| CipherLaws.XorRoundTrip | Cipher.py:74-91 | decrypting the encryption gives the plaintext back exactly when no byte and no masked byte reaches 128 |
| CipherLaws.XorRoundTripBack | Cipher.py:74-91 | if no byte and no masked byte reaches 128, the round trip holds |
| CipherLaws.XorRoundTripForth | Cipher.py:74-91 | if the round trip holds, no byte and no masked byte reaches 128 |
| CipherLaws.XorNonAsciiFails | Cipher.py:83 | byte 0x80 with key and IV zero does not survive the round trip |
| CipherLaws.XorCipherRoundTrip | Cipher.py:74-91 | the same round trip through the cipher value with its IV set |
| CipherLaws.SetParamAccepts | Cipher.py:49-211 | `set_param` succeeds exactly for index 0 and a value of the cipher's parameter length (1 for XorCipher, 16 for AES_CTR, never for NoCipher), and for AES_CTR only on a 128-, 192- or 256-bit key |
| CipherLaws.GetSetParam | Cipher.py:93-214 | a parameter that was set reads back as set |
| CipherLaws.NoCipherLaws | Cipher.py:37-57 | NoCipher's encrypt and decrypt are the identity, get_param and set_param raise InvalidArgument, a new key changes nothing, and reset_key and reset_params report True |
| CipherLaws.ResetKeyFlagInnermost | Cipher.py:39-193 | `reset_key` reports True exactly when the cipher under the SimpleSSL wrappers is NoCipher, and None otherwise |
| CipherLaws.FreshHasNoParam | Cipher.py:105-177 | a fresh XorCipher or AES_CTR has no parameter, and reading it raises AttributeError |
| CipherLaws.ResetParamsSets | Cipher.py:111-183 | after `reset_params` the parameter is the random bytes, also when AES_CTR's refused key makes it raise after storing the nonce |
| CipherLaws.CtrInvolution | Cipher.py:128-156 | CTR with the same key and nonce is its own inverse |
| CipherLaws.NonceSingleUse | Cipher.py:128-171 | after one finalised encryption a second one fails with "Don't reuse nonce value again"; setting a new nonce succeeds exactly when CTR mode accepts the key, and then encryption works again |
| CipherLaws.WideKeyRefused | Cipher.py:117-171 | a 512-bit key passes `AES_CTR`'s check, but `set_param` raises ValueError with the nonce stored, encryption still says "Nonce has not been set yet", and `reset_params` raises |
| CipherLaws.NoNonceNoEncryption | Cipher.py:132-148 | before a nonce is set, encryption and decryption fail with "Nonce has not been set yet" |
| CipherLaws.AesRoundTrip | Cipher.py:117-169 | for a 128-, 192- or 256-bit key, setting the nonce succeeds, and encrypting and then decrypting under the same key and nonce gives the plaintext |
| CipherLaws.SslAuthenticates | Cipher.py:201-208 | whatever SimpleSSL accepts, the inner cipher decrypted to the message followed by its hash |
| CipherLaws.SslEmptyDigest | Cipher.py:203-204 | with a zero-length digest, SimpleSSL can only ever return b"", because `s[:-0]` is empty |
| CipherLaws.SslAccepts | Cipher.py:201-206 | a message followed by its digest is accepted and returned |
| CipherLaws.SslRejects | Cipher.py:205-208 | a digest that is not the hash of the message gives UnAuthenticatedPacket |
| CipherLaws.PartnersRoundTrip | Cipher.py:43-217 | a receiving cipher of the sender's class and key, given the sender's parameters, decrypts the sender's ciphertext back to the plaintext |
| CipherLaws.TagIsHashName | Cipher.py:219-230 | every class's tag is `hash_name` of its name |
| CipherLaws.TagsDistinct | Cipher.py:232-237 | no two cipher classes share a tag |
| CipherLaws.LookupLastSound | Cipher.py:232-239 | a tag the registry finds was registered with the class it names |
| CipherLaws.LookupLastComplete | Cipher.py:232-239 | every registered tag is found |
| CipherLaws.LookupOwnTag | Cipher.py:232-237 | where every entry is filed under its own class's tag, a class's tag finds that class |
| CipherLaws.RegistrationsOwnTags | Cipher.py:233-237 | the registration loop files every class, each under its own tag |
| CipherLaws.RegistryFinds | Cipher.py:232-239 | `cipher_from_hash` maps every class's tag back to that class |
| CipherLaws.RegistryOnlyTags | Cipher.py:232-239 | only a class's own tag finds it |
| SecurePacket.ParamAt | SecurePacket.py:65-69 | a parameter field is read exactly when its size byte and that many bytes are present, and it is those bytes |
| SecurePacket.SecurePacketEncoder.Encode | SecurePacket.py:14-41 | the frame and the cipher's new state are those of the secure encoder |
| SecurePacket.BuildSecureHeader | SecurePacket.py:22-32 | the header loop builds the tag, the count and each `size:u8 | param` field, and fails on a count or a parameter of 256 or more |
| SecurePacket.SecurePacketDecoder.Decode | SecurePacket.py:48-74 | the frame and the cipher's new state are those of the secure decoder, parameters installed first |
| SecurePacket.InstallParams | SecurePacket.py:62-71 | the parameter loop installs each parameter in wire order and stops at the first short field or refused parameter |
| SecurePacketLaws.HeaderLayout | SecurePacket.py:22-32 | the secure header is the tag and 0, or the tag, 1, the parameter's size and the parameter |
| SecurePacketLaws.PlainHeaderSize | SecurePacket.py:35 | the plain frame's header-size field reads 6 |
| SecurePacketLaws.SplicedFrame | SecurePacket.py:36-41 | after the splice, the frame after its first two bytes is the payload size, the secure header and the ciphertext |
| SecurePacketLaws.EncodedLayout | SecurePacket.py:14-41 | the output is the header size 6 + length of the secure header, the ciphertext length, the secure header and the ciphertext |
| SecurePacketLaws.EncodeFails | SecurePacket.py:14-41 | encoding fails exactly when encryption fails, or the ciphertext, the header or a field does not fit; either way the cipher keeps its post-encryption state |
| SecurePacketLaws.ReadOneParam | SecurePacket.py:62-71 | the decoder's loop reads back and installs the one parameter the header carries |
| SecurePacketLaws.LaidOutFrame | SecurePacket.py:49-62 | such a frame passes the plain decoder and the tag check, and declares the header's parameter count |
| SecurePacketLaws.DecodeSteps | SecurePacket.py:48-74 | decoding, given what each step yields, is the decryption of the frame's payload by the cipher with its parameters installed |
| SecurePacketLaws.DecodeNoParam | SecurePacket.py:48-74 | a frame declaring no parameter decodes to the decrypted payload, header size 9 |
| SecurePacketLaws.DecodeOneParam | SecurePacket.py:48-74 | a frame declaring one parameter decodes to the payload decrypted after that parameter is installed |
| SecurePacketLaws.HeaderShape | SecurePacket.py:22-32 | a header with at most one parameter has the shape the two decoding lemmas take |
| SecurePacketLaws.RoundTripFrame | SecurePacket.py:14-74 | the encoder's frame, read by a cipher that decrypts it, decodes to the plaintext with the frame's sizes |
| SecurePacketLaws.AssembledLayout | SecurePacket.py:35-41 | the encoder's bytes, followed by anything, are laid out around the secure header |
| SecurePacketLaws.SecureRoundTrip | SecurePacket.py:14-74 | between partner ciphers, encoding succeeds exactly when the ciphertext fits, and decoding the result, with anything after it, gives back the payload and a frame covering exactly the encoder's bytes |
| SecurePacketLaws.MismatchRejectedFrame | SecurePacket.py:56-60 | a decoder cipher of another class refuses the frame with CipherTypeMismatch and keeps its state |
| SecurePacketLaws.MismatchRejected | SecurePacket.py:56-60 | the same for the encoder's output from any cipher of another class |
| SecurePacketLaws.ParamFieldsPrefix | SecurePacket.py:24-32 | the parameter loop only appends to the header built so far |
| SecurePacketLaws.HeaderPrefix | SecurePacket.py:22 | every secure header starts with the cipher's tag and its parameter count |
| SecurePacketLaws.UnknownTagRejected | SecurePacket.py:56-60 | a tag that names no registered class is refused whatever the local cipher, the state kept |
| SecurePacketLaws.BaseTagAccepted | SecurePacket.py:57-59 | the abstract base class's tag passes the check for every cipher, since every cipher is an instance of it |
| SecurePacketLaws.PlainDecoderSeesCiphertext | SecurePacket.py:34-41 | a plain decoder reading a secure frame finds the ciphertext as its payload |
| PacketBuffers.PacketBuffer.constructor | PacketBuffer.py:10-17 | a new buffer has no chunk and an empty accumulator |
| PacketBuffers.PacketBuffer.Push | PacketBuffer.py:19-21 | the chunk is appended at the end, and the accumulator is unchanged |
| PacketBuffers.PacketBuffer.Pop | PacketBuffer.py:23-54 | the result, the queue, the accumulator and the decoder's cipher afterwards are those of one `pop` |
| PacketBuffers.PacketBuffer.Len | PacketBuffer.py:56-57 | returns the number of queued chunks |
| PacketBufferLaws.PopTakesOldest | PacketBuffer.py:25-29 | an empty queue returns b"" and changes nothing; otherwise exactly the oldest chunk leaves the queue |
| PacketBufferLaws.RawPop | PacketBuffer.py:33-36 | without a decoder, a pop returns everything accumulated and empties the accumulator |
| PacketBufferLaws.SecureFrame | SecurePacket.py:49 | the secure decoder fails as the plain decoder does, and reports the same frame sizes |
| PacketBufferLaws.FrameWithin | PacketBuffer.py:38-42 | a decoded frame never claims more bytes than it was given |
| PacketBufferLaws.PopWithDecoder | PacketBuffer.py:38-54 | with a decoder, the accumulator is emptied exactly when it holds one whole frame, which is returned; an error is a re-raised kind and keeps the accumulator |
| PacketBufferLaws.Overflow | PacketBuffer.py:41-54 | a frame shorter than the accumulator returns b"" and keeps the accumulator |
| PacketBufferLaws.StickyOverflow | PacketBuffer.py:28-54 | once the plain accumulator holds a frame and more, every later pop returns b"" and only appends to it |
| PacketBufferLaws.StickyStep | PacketBuffer.py:28-54 | in that state one pop returns b"" and moves the next chunk into the accumulator |
| PacketBufferLaws.PopMidFrame | PacketBuffer.py:28-48 | a pop before a frame's last chunk keeps the bytes gathered so far and leaves the decoder as it was |
| PacketBufferLaws.PopLastChunk | PacketBuffer.py:38-45 | the pop of a frame's last chunk returns its payload and empties the accumulator |
| PacketBufferLaws.Reassembly | PacketBuffer.py:23-54 | popping a frame's chunks one by one returns the payload at the last one, with the accumulator empty and later chunks untouched |
| PacketBufferLaws.PlainReassembly | PacketBuffer.py:23-54 | the same for a plain frame split in any way |
| PacketBufferLaws.SecureReassembly | PacketBuffer.py:23-54 | the same for a secure frame between partner ciphers: the last pop returns the plaintext |
| PacketBufferLaws.SecureSplit | PacketBuffer.py:38-45 | chunks carrying one secure frame split it as reassembly needs, and the frame's payload is the plaintext |
| PacketBufferLaws.SecureWhole | PacketBuffer.py:38-48 | chunks that join into one whole secure frame split it as reassembly needs |
| PacketBufferLaws.SecurePrefixesFail | PacketBuffer.py:38-48 | every strict prefix of a whole secure frame fails in the plain codec and leaves the cipher as it was |
| Receiver.ReceiverScheme.constructor | src/sft/protocol/receiver.py:33-52 | a new receiver is idle, with no file, three tries and the default settings |
| Receiver.ReceiverScheme.SetConfig | src/sft/protocol/receiver.py:54-88 | the settings and the error are those of `config`, and the session state is unchanged |
| Receiver.ReceiverScheme.Cancel | src/sft/protocol/receiver.py:90-104 | the state becomes the cancelled one |
| Receiver.ReceiverScheme.Activation | src/sft/protocol/receiver.py:108-120 | the new state and the activation are those of `activation` |
| Receiver.ReceiverScheme.RespDeny | src/sft/protocol/receiver.py:132-141 | returns the result of `resp_deny` for the current step |
| Receiver.ReceiverScheme.RespRequest | src/sft/protocol/receiver.py:144-173 | the new state and the reply are those of `resp_request` |
| Receiver.ReceiverScheme.GetRequirePacket | src/sft/protocol/receiver.py:175-183 | returns REQUIRE from the copy's size and the buffer size, or the exception it raises |
| Receiver.ReceiverScheme.RespInfo | src/sft/protocol/receiver.py:186-236 | the new state and the reply are those of `resp_info` |
| Receiver.ReceiverScheme.StartReceivingFile | src/sft/protocol/receiver.py:218-234 | the state and the reply are those of opening the copy and asking from offset 0 |
| Receiver.ReceiverScheme.RespSend | src/sft/protocol/receiver.py:239-315 | the new state and the reply are those of `resp_send` |
| ReceiverLaws.ValidKept | src/sft/protocol/receiver.py:90-315 | every handler keeps the invariant: while receiving, the copy and the expected size and digest are set, and the tries never exceed three |
| ReceiverLaws.InfoKeepsValid | src/sft/protocol/receiver.py:186-236 | `resp_info` keeps the invariant |
| ReceiverLaws.SendRaisesOnlyOnOverflow | src/sft/protocol/receiver.py:239-315 | in a valid state, `resp_send` raises only when writing a REQUIRE field overflows |
| ReceiverLaws.ActivationLaw | src/sft/protocol/receiver.py:108-120 | activation only from the idle step: REQUESTING and a REQUEST whose payload decodes to the token; otherwise nothing |
| ReceiverLaws.CancelRestarts | src/sft/protocol/receiver.py:90-120 | after `cancel` no file is open, the info is empty, the tries are three, and a new activation succeeds |
| ReceiverLaws.RequestLaw | src/sft/protocol/receiver.py:144-173 | a REQUEST is accepted exactly when the token decodes and the token check gives a value, which is recorded; expired tokens are denied as expired, others as invalid |
| ReceiverLaws.DefaultAcceptsAnyToken | src/sft/protocol/receiver.py:40-171 | the default token check accepts every token and records it |
| ReceiverLaws.DenyLaw | src/sft/protocol/receiver.py:132-141 | DENY ends the session, with the payload as message, exactly when this receiver asked |
| ReceiverLaws.ReadInfoExtended | src/sft/protocol/receiver.py:190-207 | an ASCII INFO followed by extra bytes reads as the sender's fields, and reading stops where the extra bytes begin |
| ReceiverLaws.InfoStartsReceiving | src/sft/protocol/receiver.py:186-234 | an ASCII INFO opens an empty copy, records the size, digest and name, and sends a REQUIRE the sender reads as offset 0 with this buffer size |
| ReceiverLaws.TooManyParameters | src/sft/protocol/receiver.py:207-216 | bytes after the last INFO field give FAILURE "Too many parameters" with the state untouched |
| ReceiverLaws.NonAsciiNameRaises | src/sft/protocol/receiver.py:192-195 | an INFO for the name "é" makes `resp_info` raise UnicodeDecodeError, the state untouched |
| ReceiverLaws.WrongOffset | src/sft/protocol/receiver.py:243-259 | a wrong offset: a new REQUIRE for the copy's size and one try fewer while tries remain, else FAILURE "Wrong offset."; nothing is written |
| ReceiverLaws.RetriesUsed | src/sft/protocol/receiver.py:245-249 | n wrong offsets use up n tries and change nothing else |
| ReceiverLaws.RetryBudget | src/sft/protocol/receiver.py:243-259 | with k tries left, k wrong offsets get REQUIRE and the next one ends the session with FAILURE |
| ReceiverLaws.RightOffsetAppends | src/sft/protocol/receiver.py:260-261 | a chunk at the right offset is appended to the copy |
| ReceiverLaws.CompletionChecksDigest | src/sft/protocol/receiver.py:271-299 | a chunk that completes the expected size ends the session, with SUCCESS and the info exactly when the digest matches, else FAILURE "Integrity is compromised" |
| ReceiverLaws.ShortCopyContinues | src/sft/protocol/receiver.py:310-313 | a copy still short of the size restores three tries and asks for the rest |
| ReceiverLaws.OvershootFails | src/sft/protocol/receiver.py:301-308 | a copy beyond the expected size gives FAILURE "Received too much" |
| ReceiverLaws.ConfigureLaw | src/sft/protocol/receiver.py:54-88 | `config` rejects a missing directory and a negative buffer size; a given directory is applied even when the buffer size is then rejected; a zero buffer size, falsy in Python, leaves the setting as it is |
| Sender.SenderScheme.constructor | src/sft/protocol/sender.py:27-40 | a new sender is idle, with no file and the default settings |
| Sender.SenderScheme.SetConfig | src/sft/protocol/sender.py:42-66 | the settings and the error are those of `config`, and the session state is unchanged |
| Sender.SenderScheme.Cancel | src/sft/protocol/sender.py:68-77 | the state becomes the cancelled one |
| Sender.SenderScheme.Activation | src/sft/protocol/sender.py:80-97 | the new state and the activation are those of `activation` |
| Sender.SenderScheme.CreateInfoPacket | src/sft/protocol/sender.py:107-123 | the recorded name and the packet are those of `__create_info_packet` |
| Sender.SenderScheme.RespRequest | src/sft/protocol/sender.py:126-157 | the new state and the reply are those of `resp_request` |
| Sender.SenderScheme.AnnounceFile | src/sft/protocol/sender.py:160-166 | the state and the reply are those of sending INFO and waiting |
| Sender.SenderScheme.RespAccept | src/sft/protocol/sender.py:160-168 | the new state and the reply are those of `resp_accept` |
| Sender.SenderScheme.RespDeny | src/sft/protocol/sender.py:171-180 | returns the result of `resp_deny` for the current step |
| Sender.SenderScheme.RespRequire | src/sft/protocol/sender.py:183-206 | the new state and the reply are those of `resp_require` |
| Sender.SenderScheme.RespSuccess | src/sft/protocol/sender.py:209-217 | returns the result of `resp_success` for the current step |
| Sender.SenderScheme.RespFailure | src/sft/protocol/sender.py:220-230 | returns the result of `resp_failure` for the current step |
| SenderLaws.ValidKept | src/sft/protocol/sender.py:68-206 | every handler keeps the invariant that a file is open outside the idle step |
| SenderLaws.ActivationLaw | src/sft/protocol/sender.py:80-97 | activation only from the idle step and for a file that exists: REQUESTING, the file open, and a REQUEST carrying the token as UTF-8 |
| SenderLaws.AnnounceLaw | src/sft/protocol/sender.py:107-123 | the name is recorded, then INFO carries the name, the digest and the size, or raises OverflowError when one does not fit |
| SenderLaws.AcceptLaw | src/sft/protocol/sender.py:160-168 | ACCEPT is answered with INFO exactly when this sender made an offer, and ignored otherwise |
| SenderLaws.RequestServesFile | src/sft/protocol/sender.py:126-157 | the token check names the file: an existing one is opened and announced; a missing one raises, the name stays recorded and the step idle |
| SenderLaws.RequestDenied | src/sft/protocol/sender.py:126-147 | a token that does not decode or that the check refuses is denied, the state untouched |
| SenderLaws.RequireServesChunk | src/sft/protocol/sender.py:183-204 | REQUIRE is answered with the file's bytes from the offset, at most the smaller buffer size, cut short only by the end of the file, with an option that reads back as the offset |
| SenderLaws.OutcomeLaw | src/sft/protocol/sender.py:170-230 | SUCCESS reports the recorded info, FAILURE hands on the receiver's message, and DENY after the offer is ignored |
| SenderLaws.ConfigureLaw | src/sft/protocol/sender.py:42-66 | `config` rejects only a negative buffer size; on success a positive buffer size and a given token check replace their settings |
| LegacyReceiver.LegacyReceiverScheme.constructor | src/sft/protocol/receiver_scheme.py:29-45 | a new receiver is idle, with nothing open, three tries and the default settings |
| LegacyReceiver.LegacyReceiverScheme.SetConfig | src/sft/protocol/receiver_scheme.py:47-72 | the settings and the error are those of `config`, and the session state is unchanged |
| LegacyReceiver.LegacyReceiverScheme.Cancel | src/sft/protocol/receiver_scheme.py:74-85 | the state becomes the cancelled one |
| LegacyReceiver.LegacyReceiverScheme.RespRequest | src/sft/protocol/receiver_scheme.py:92-123 | the new state and the reply are those of `resp_request` |
| LegacyReceiver.LegacyReceiverScheme.GetRequirePacket | src/sft/protocol/receiver_scheme.py:125-133 | returns REQUIRE from the byte counter and the buffer size, or the exception it raises |
| LegacyReceiver.LegacyReceiverScheme.RespInfo | src/sft/protocol/receiver_scheme.py:136-170 | the new state and the reply are those of `resp_info` |
| LegacyReceiver.LegacyReceiverScheme.OpenReceiving | src/sft/protocol/receiver_scheme.py:157-168 | the state and the reply are those of opening an empty copy, setting the counter to 0 and asking for offset 0 |
| LegacyReceiver.LegacyReceiverScheme.RespSend | src/sft/protocol/receiver_scheme.py:173-261 | the new state and the reply are those of `resp_send` |
| LegacyReceiver.LegacyReceiverScheme.AskAgain | src/sft/protocol/receiver_scheme.py:179-197 | the state and the reply are those of a chunk at a wrong offset |
| LegacyReceiver.LegacyReceiverScheme.Write | src/sft/protocol/receiver_scheme.py:198-259 | the state and the reply are those of writing a chunk at the counter's offset |
| LegacyReceiverLaws.ValidKept | src/sft/protocol/receiver_scheme.py:74-170 | every handler keeps the invariant that a set counter belongs to a receiving session with its INFO fields recorded and counts what the copy holds |
| LegacyReceiverLaws.SendKeepsValid | src/sft/protocol/receiver_scheme.py:173-261 | SEND keeps the invariant |
| LegacyReceiverLaws.TokenLaw | src/sft/protocol/receiver_scheme.py:92-123 | a REQUEST is accepted exactly when its token decodes and equals the configured one; a denial says "Invalid token." or "Token mismatched" |
| LegacyReceiverLaws.OwnTokenAccepted | src/sft/protocol/receiver_scheme.py:97-114 | the configured token, sent as UTF-8, is accepted |
| LegacyReceiverLaws.InfoOpensCopy | src/sft/protocol/receiver_scheme.py:136-168 | an INFO whose name decodes opens an empty copy, sets the counter to 0, records the fields and asks for offset 0 |
| LegacyReceiverLaws.TrailingBytesIgnored | src/sft/protocol/receiver_scheme.py:140-155 | bytes after the last INFO field are not looked at |
| LegacyReceiverLaws.BadNameSticks | src/sft/protocol/receiver_scheme.py:137-141 | an INFO whose name does not decode raises after the step has become receiving, with no counter set |
| LegacyReceiverLaws.StuckHandles | src/sft/protocol/receiver_scheme.py:174-182 | in a receiving state without a counter, SEND raises, INFO and REQUEST are ignored, and nothing changes |
| LegacyReceiverLaws.StuckForever | src/sft/protocol/receiver_scheme.py:74-182 | no sequence of messages gets such a receiver out; only `cancel` does |
| LegacyReceiverLaws.BadNameAfterAccept | src/sft/protocol/receiver_scheme.py:136-141 | the undecodable name leaves the receiver in that stuck state |
| LegacyReceiverLaws.WrongOffset | src/sft/protocol/receiver_scheme.py:179-197 | a wrong offset: REQUIRE for the counter and one try fewer while tries remain, else FAILURE "Wrong offset." |
| LegacyReceiverLaws.RightOffsetCounts | src/sft/protocol/receiver_scheme.py:198-209 | a chunk at the counter's offset is appended and the counter grows by its length |
| LegacyReceiverLaws.CompletionChecksDigest | src/sft/protocol/receiver_scheme.py:210-245 | the chunk that reaches the size closes the copy, with SUCCESS and the local and announced names exactly when the digest matches |
| LegacyReceiverLaws.IncompleteCopy | src/sft/protocol/receiver_scheme.py:247-259 | a short copy asks for the next chunk with three tries, and an overlong one gives FAILURE "Received too much" |
| LegacyReceiverLaws.ClosedRefusesWrites | src/sft/protocol/receiver_scheme.py:198-207 | once the copy is closed, a further chunk at the counter's offset fails to be written |
| LegacyReceiverLaws.ConfigureLaw | src/sft/protocol/receiver_scheme.py:47-72 | `config` rejects a missing directory and a negative buffer size; on success a given directory, a positive buffer size and a non-empty token replace their settings |
| LegacySender.LegacySenderScheme.constructor | src/sft/protocol/sender_scheme.py:26-36 | a new sender is idle, with no file and the default settings |
| LegacySender.LegacySenderScheme.SetConfig | src/sft/protocol/sender_scheme.py:38-54 | the settings and the error are those of `config`, and the session state is unchanged |
| LegacySender.LegacySenderScheme.Cancel | src/sft/protocol/sender_scheme.py:56-63 | the state becomes the cancelled one |
| LegacySender.LegacySenderScheme.Activation | src/sft/protocol/sender_scheme.py:66-79 | the new state and the activation are those of `activation` |
| LegacySender.LegacySenderScheme.RespAccept | src/sft/protocol/sender_scheme.py:86-106 | the new state and the reply are those of `resp_accept` |
| LegacySender.LegacySenderScheme.RespDeny | src/sft/protocol/sender_scheme.py:109-113 | returns the result of `resp_deny` for the current step |
| LegacySender.LegacySenderScheme.RespRequire | src/sft/protocol/sender_scheme.py:116-133 | returns the result of `resp_require` for the current state |
| LegacySender.LegacySenderScheme.RespSuccess | src/sft/protocol/sender_scheme.py:136-140 | returns the result of `resp_success` for the current step |
| LegacySender.LegacySenderScheme.RespFailure | src/sft/protocol/sender_scheme.py:143-148 | returns the result of `resp_failure` for the current step |
| LegacySenderLaws.ValidKept | src/sft/protocol/sender_scheme.py:56-106 | every handler keeps the invariant that a name is recorded outside the idle step and a file is open only while sending |
| LegacySenderLaws.ActivationLaw | src/sft/protocol/sender_scheme.py:66-79 | activation only from the idle step and for a file that exists: REQUESTING, the name recorded, and a REQUEST carrying the configured token |
| LegacySenderLaws.AcceptLaw | src/sft/protocol/sender_scheme.py:86-106 | an accepted offer always leaves the step SENDING; otherwise the file is open and INFO carries its name, digest and size |
| LegacySenderLaws.AcceptAnnounces | src/sft/protocol/sender_scheme.py:94-102 | for an ASCII name, the receiver reads INFO back as the name, the digest and the size |
| LegacySenderLaws.RequireServesChunk | src/sft/protocol/sender_scheme.py:116-131 | REQUIRE is answered with the file's bytes from the offset, at most the smaller buffer size, with the offset as option |
| LegacySenderLaws.OutcomeLaw | src/sft/protocol/sender_scheme.py:108-148 | DENY ends an offer with "Denied.", SUCCESS reports nothing, FAILURE hands on the payload; all are ignored in other steps |
| LegacySenderLaws.ConfigureLaw | src/sft/protocol/sender_scheme.py:38-54 | `config` rejects only a negative buffer size; on success a positive buffer size and a non-empty token replace their settings, and the forwarder is kept |
| Session.RoundCompletes | src/sft/protocol/receiver.py:271-299 | a round that reaches the end of the file completes the copy, and the receiver reports SUCCESS |
| Session.RoundContinues | src/sft/protocol/receiver.py:310-313 | a round short of the end moves the copy forward by a whole chunk, and the receiver asks for the rest |
| Session.CopyCompletes | src/sft/protocol/receiver.py:260-299 | the last chunk makes the copy the file, whose digest is the announced one |
| Session.CopyContinues | src/sft/protocol/receiver.py:260-313 | a chunk short of the end extends the copy by its length and asks for the next |
| Session.RoundIsReceipt | src/sft/protocol/sender.py:183-204 | in a round the receiver takes the chunk at its offset, and the sender stays sending |
| Session.ChunkSent | src/sft/protocol/sender.py:183-204 | the sender's exact answer to a REQUIRE for offset k |
| Session.Delivers | src/sft/protocol/receiver.py:239-313 | from a copy of the first k bytes, the rounds needed end with the receiver holding exactly the sender's file and reporting SUCCESS |
| Session.ReceiverAsks | src/sft/protocol/receiver.py:108-120 | the receiver's activation asks for the file its token names |
| Session.SenderAnnounces | src/sft/protocol/sender.py:126-157 | a sender with the default token check opens the file the token names and announces it |
| Session.ReceiverStarts | src/sft/protocol/receiver.py:186-234 | the receiver takes the announcement: an empty copy and a REQUIRE from offset 0 |
| Session.FileDelivered | src/sft/protocol/receiver.py:108-315 | a whole session ends with the receiver holding exactly the file the sender holds under the token's name, and SUCCESS reports the name without its directory |
| LegacySession.TokensMustAgree | src/sft/protocol/receiver_scheme.py:92-123 | the receiver accepts the earlier sender's offer exactly when both ends are configured with the same token |
| LegacySession.NonAsciiNameStrandsReceiver | src/sft/protocol/sender_scheme.py:94-102 | offering a file named "é" leaves the earlier receiver stuck: its name bytes do not decode and it never asks for a chunk |

## Left out

- Sockets, threads and the session framework: `SecureTCP.py` and the csbuilder routing are not part of this model. A handler's result is a plain value, and the forwarder it returns is dropped.
- `SecureTCP.py` calls `reset_params` before each send (SecureTCP.py:92-102). The model leaves that call order to the caller: the cipher laws take the parameters as given.
- Type checks: the `isinstance` guards are not modelled, since Dafny's types already exclude non-bytes inputs. This covers InvalidArgument for non-bytes payloads and parameters, and a non-callable `detoken`.
- Unknown keyword arguments to `config` are not modelled, because each option is a separate parameter.
- Both receivers' `config` refuses a directory when the role the framework assigns is SENDER. A receiver always has the receiver role, so that branch is not modelled.
- Randomness and clocks: `os.urandom` in `reset_params` is an input of the right length. The `time.time_ns()` and `random.randint` suffix of a temporary file name is the `stamp` parameter.
- The file system is a map from paths to contents, plus a set of the directories that exist. `FileWriter` and `open(...)` are a sequence of bytes that grows by appending. Failures of write, close and open other than the ones the model names are not modelled.
- Hashes are a function parameter. AES's keystream is an opaque function of key and nonce. SHA-256 and AES themselves are not modelled. Of the cryptography library, only CTR mode's refusal of keys over 256 bits is modelled (`CipherSuite.CtrKeyLength`).
- Utf8: a Python `str` may hold lone surrogates, for which `.encode()` raises UnicodeEncodeError (the token at src/sft/protocol/sender.py:90-97, the name at src/sft/protocol/sender.py:115-116). Dafny's `char` excludes surrogates, so the model has no such string and no such error.
- Exception messages are abbreviated to the exception's type or the source's fixed text. An `ignore` reason is the empty string.
- LegacyReceiver.LegacyReceiverScheme.Write: the "Unknown error" payload reports `repr(e)` as the fixed text "AttributeError".
- LegacySender.OnFailure: the earlier sender passes the receiver's bytes as `reason`. The model puts them in the outcome's message, because a reason is a string here.
- Receiver.OnRequest: an exception from the token check is a value (`Detoken`): TimeoutError is `Expired` and every other exception is `Invalid`.
- The earlier receiver's `cancel` does not remove the partial copy, and this model has no file deletion either.
- The class branch of `hash_name` (Cipher.py:220-221) reads the module global `_class`, not its argument. During registration that global is the class being registered, so the model applies `hash_name` to the class's own name. A call on a class outside the registration loop is not modelled.
- `SimpleSSL` wraps a cipher value, not a shared object. Aliasing between a SimpleSSL and an inner cipher used elsewhere is not modelled.
- Cipher.py's `__main__` blocks and the other demonstration code are not part of this model.
- PacketBuffers.Propagates: `DefinedError.py` is not part of this model. Its InvalidArgument is taken to derive from none of the three exception bases `pop` re-raises (PacketBuffer.py:46-51). So an InvalidArgument raised during a secure decode, such as a nonce of the wrong length, makes `pop` return b"".

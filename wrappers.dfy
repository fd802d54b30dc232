/** Option and Result, and the exceptions of the transport layer as one closed datatype. */
module Wrappers {

  datatype Option<+T> = None | Some(value: T)

  datatype Result<+T, +E> = Ok(value: T) | Err(error: E)

  /** The exceptions raised by the codecs, the ciphers and the packet buffer. */
  datatype Error =
    | InvalidArgument(msg: string)      // DefinedError.InvalidArgument
    | StructError                       // struct.error: too few bytes to unpack, or a value that does not fit
    | AttributeError                    // a parameter read before it was ever set
    | CannotExtractPacket(msg: string)  // Packet.CannotExtractPacket
    | CipherTypeMismatch                // SecurePacket.CipherTypeMismatch
    | EncryptFailed(msg: string)        // Cipher.EncryptFailed
    | UnAuthenticatedPacket             // Cipher.UnAuthenticatedPacket, a DecryptFailed
    | BufferOverflow                    // PacketBuffer.PacketBufferOverflow
    | ValueError(msg: string)           // raised by the cryptography library for a key its mode refuses

  /** `isinstance(e, PacketException)`. */
  predicate IsPacketException(e: Error) { e.CannotExtractPacket? }

  /** `isinstance(e, SecurePacketException)`. */
  predicate IsSecurePacketException(e: Error) { e.CipherTypeMismatch? }

  /** `isinstance(e, CipherException)`: EncryptFailed, DecryptFailed and its subclass. */
  predicate IsCipherException(e: Error) { e.EncryptFailed? || e.UnAuthenticatedPacket? }
}

/** The cipher object a connection shares between its encoder, decoder and packet buffer. */
module CipherObjects {
  import opened Bytes
  import opened Wrappers
  import CipherSuite

  /**
   * A cipher object. The secure encoder, the secure decoder and the packet
   * buffer of one connection hold the same object, so a parameter set by one
   * is seen by the others.
   */
  class CipherObject {
    var state: CipherSuite.Cipher

    constructor (c: CipherSuite.Cipher)
      ensures state == c
    {
      state := c;
    }

    /** `reset_key(newkey)`; on success the flag is its True (true) or None (false). */
    method ResetKey(newkey: bytes) returns (r: Result<bool, Error>)
      modifies this
      ensures CipherSuite.ResetKey(old(state), newkey).Err? ==>
        r == Err(CipherSuite.ResetKey(old(state), newkey).error) && state == old(state)
      ensures CipherSuite.ResetKey(old(state), newkey).Ok? ==>
        r == Ok(CipherSuite.ResetKeyFlag(old(state))) && state == CipherSuite.ResetKey(old(state), newkey).value
    {
      match CipherSuite.ResetKey(state, newkey)
      case Err(e) =>
        r := Err(e);
      case Ok(c) =>
        r := Ok(CipherSuite.ResetKeyFlag(state));
        state := c;
    }

    /** `set_param(index, value)`; a failure leaves what `FailedSetParam` says. */
    method SetParam(index: nat, value: bytes) returns (r: Result<(), Error>)
      modifies this
      ensures CipherSuite.SetParam(old(state), index, value).Err? ==>
        r == Err(CipherSuite.SetParam(old(state), index, value).error) &&
        state == CipherSuite.FailedSetParam(old(state), index, value)
      ensures CipherSuite.SetParam(old(state), index, value).Ok? ==>
        r == Ok(()) && state == CipherSuite.SetParam(old(state), index, value).value
    {
      match CipherSuite.SetParam(state, index, value)
      case Err(e) =>
        r := Err(e);
        state := CipherSuite.FailedSetParam(state, index, value);
      case Ok(c) =>
        state := c;
        r := Ok(());
    }

    method GetParam(index: nat) returns (r: Result<bytes, Error>)
      ensures r == CipherSuite.GetParam(state, index)
    {
      r := CipherSuite.GetParam(state, index);
    }

    /** `reset_params()`, with the bytes `os.urandom` would return. */
    method ResetParams(random: bytes) returns (ok: Result<bool, Error>)
      requires |random| == CipherSuite.RandomLength(state)
      modifies this
      ensures (ok, state) == CipherSuite.ResetParams(old(state), random)
    {
      var (b, c) := CipherSuite.ResetParams(state, random);
      ok, state := b, c;
    }

    method Encrypt(plaintext: bytes) returns (r: Result<bytes, Error>)
      modifies this
      ensures CipherSuite.Outcome(r, state) == CipherSuite.Encrypt(old(state), plaintext)
    {
      var o := CipherSuite.RunEncrypt(state, plaintext);
      r, state := o.result, o.after;
    }

    method Decrypt(ciphertext: bytes) returns (r: Result<bytes, Error>)
      modifies this
      ensures CipherSuite.Outcome(r, state) == CipherSuite.Decrypt(old(state), ciphertext)
    {
      var o := CipherSuite.RunDecrypt(state, ciphertext);
      r, state := o.result, o.after;
    }
  }
}

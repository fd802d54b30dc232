/**
 * What the four transfer schemes share: the message kinds of each role, the
 * packets they exchange, the result a handler gives back to the session
 * framework, and the fixed-width integer fields.
 */
module Scheme {
  import opened Bytes
  import opened Wrappers
  import Utf8

  /** Width of every integer field, in bytes. */
  const INT_SIZE: nat := 4
  const DEFAULT_BUFFER_SIZE: nat := 10_000_000
  const DEFAULT_TOKEN: string := "default"
  /** How many wrong offsets a receiver answers with a new REQUIRE before it gives up. */
  const DEFAULT_NTRIES: nat := 3

  /** The kinds of packet a sender emits. */
  datatype SenderKind = SenderIgnore | SenderRequest | Info | Send | SenderDeny

  /** The kinds of packet a receiver emits. */
  datatype ReceiverKind = ReceiverIgnore | Accept | ReceiverDeny | Require | Success | Failure | ReceiverRequest

  datatype Packet<K> = Packet(kind: K, option: bytes, payload: bytes)

  /** The `Done` a handler reports: the session goes on, or it ended with a verdict. */
  datatype Done = Unfinished | Finished(ok: bool, reason: string, message: bytes, fields: map<string, string>)

  /**
   * The outcome of one handler: a reply (the packet to send back, if any, and
   * whether the session continues), the framework's `ignore`, or an exception
   * that escapes the handler.
   */
  datatype Reply<K> =
    | Reply(packet: Option<Packet<K>>, cont: bool, done: Done)
    | Ignored(reason: string)
    | Raised(reason: string)

  /** The outcome of `activation`. */
  datatype Activation<K> = Inactive | Activated(packet: Packet<K>) | ActivationFailed(reason: string)

  /** What a token check reports: a value, an expired token, or any other exception. */
  datatype Detoken = Value(value: string) | Expired | Invalid

  type Detokenizer = string -> Detoken
  type Hash = bytes -> bytes

  /** `n.to_bytes(4, "big")`; None stands for OverflowError. */
  function U32(n: nat): (r: Option<bytes>)
    ensures r.Some? <==> n < TWO_32
    ensures r.Some? ==> |r.value| == INT_SIZE && FromBe(r.value) == n
  {
    if n < TWO_32 then FromBeBe32(n); Some(Be32(n)) else None
  }

  /** `int.from_bytes(s[at:at + 4], "big")`: missing bytes shorten the field. */
  function ReadU32(s: bytes, at: nat): nat
  {
    FromBe(Slice(s, at, at + INT_SIZE))
  }

  /** A field read back where it was written. */
  lemma ReadWritten(prefix: bytes, field: bytes, rest: bytes)
    requires |field| == INT_SIZE
    ensures ReadU32(prefix + field + rest, |prefix|) == FromBe(field)
  {
    assert (prefix + field + rest)[|prefix|..|prefix| + INT_SIZE] == field;
  }

  /** Every field read is below 2^32, so writing it back cannot overflow. */
  lemma ReadBound(s: bytes, at: nat)
    ensures ReadU32(s, at) < TWO_32
  {
    FromBeBound4(Slice(s, at, at + INT_SIZE));
  }

  /** `s.encode()`. */
  function Text(s: string): bytes
  {
    Utf8.Encode(s)
  }

  /** A bytes literal `b"..."`, written as the ASCII text it spells. */
  function Ascii(s: string): (r: bytes)
    ensures |r| == |s|
  {
    seq(|s|, i requires 0 <= i < |s| => Byte(s[i] as int % 256))
  }

  /** An ASCII text's bytes literal is what `str.encode()` gives for it. */
  lemma AsciiText(s: string)
    requires Utf8.IsAscii(s)
    ensures Ascii(s) == Text(s)
  {
    Utf8.EncodeAscii(s);
    forall i | 0 <= i < |s| ensures Ascii(s)[i] == Text(s)[i] {
      ByteOf(Text(s)[i]);
    }
  }

  lemma ByteOf(b: byte)
    ensures Byte(b as int) == b
  {}

  /** The last component of a path, `os.path.split(path)[1]`. */
  function BaseName(path: string): string
  {
    if path == [] || path[|path| - 1] == '/' then []
    else BaseName(path[..|path| - 1]) + [path[|path| - 1]]
  }

  /** The base name is the part of the path after its last separator. */
  lemma {:induction false} BaseNameSuffix(path: string)
    ensures var r := BaseName(path); '/' !in r && |r| <= |path| && r == path[|path| - |r|..]
    ensures '/' !in path ==> BaseName(path) == path
  {
    if path != [] && path[|path| - 1] != '/' {
      var init, last := path[..|path| - 1], path[|path| - 1];
      assert path == init + [last];
      BaseNameSuffix(init);
      assert path[|init| - |BaseName(init)|..] == init[|init| - |BaseName(init)|..] + [last];
    }
  }

  /** `os.path.join(directory, name)` for a name without a separator. */
  function Join(directory: string, name: string): string
  {
    if directory == [] || directory[|directory| - 1] == '/' then directory + name
    else directory + "/" + name
  }
}

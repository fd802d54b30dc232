/** What the receiver's handlers guarantee, stated on the handler functions. */
module ReceiverLaws {
  import opened Bytes
  import opened Wrappers
  import Utf8
  import opened Scheme
  import opened Transfer
  import opened Receiver

  /**
   * Once receiving, the copy, the expected size and the expected digest are
   * all set, and the retry budget never exceeds its initial value.
   */
  predicate Valid(s: State)
  {
    (s.step == Receiving ==> s.file.Some? && s.expectedSize.Some? && s.expectedDigest.Some?)
    && s.remainTries <= DEFAULT_NTRIES
  }

  /** Every handler keeps the state valid, from the initial state on. */
  lemma ValidKept(s: State, c: Config, hash: Hash, token: string, option: bytes, payload: bytes)
    requires Valid(s)
    ensures Valid(INITIAL) && Valid(Cancelled(s))
    ensures Valid(Activate(s, token).0) && Valid(OnRequest(s, c, payload).0) && Valid(OnSend(s, c, hash, option, payload).0)
  {}

  /** `resp_info` leaves the state as it was or starts receiving with every field set. */
  lemma InfoKeepsValid(s: State, c: Config, payload: bytes, stamp: string)
    requires Valid(s)
    ensures Valid(OnInfo(s, c, payload, stamp).0)
  {
    var r := ReadInfo(payload);
    match Utf8.Decode(r.0.nameBytes)
    case None =>
    case Some(name) =>
      if (s.step == Accepted || s.step == Requesting) && |From(payload, r.1)| == 0 {
        assert OnInfo(s, c, payload, stamp) == StartReceiving(s, c, r.0, name, stamp);
      }
  }

  /**
   * In a valid state the only exception `resp_send` can raise is the
   * overflow of a REQUIRE field: the copy or the buffer size reaching 2^32.
   */
  lemma SendRaisesOnlyOnOverflow(s: State, c: Config, hash: Hash, option: bytes, payload: bytes)
    requires Valid(s)
    ensures var (s', r) := OnSend(s, c, hash, option, payload);
      r.Raised? ==> r.reason == "OverflowError" && s'.file.Some? && (|s'.file.value| >= TWO_32 || c.bufferSize >= TWO_32)
  {}

  /** `activation` sends the token, and only from the idle step. */
  lemma ActivationLaw(s: State, token: string)
    ensures var (s', a) := Activate(s, token);
      (a.Activated? <==> s.step == Idle) &&
      (a.Activated? ==> s' == s.(step := Requesting) && a.packet.kind == ReceiverRequest
                        && Utf8.Decode(a.packet.payload) == Some(token)) &&
      (!a.Activated? ==> s' == s && a == Inactive)
  {
    Utf8.DecodeEncode(token);
  }

  /** After `cancel` a receiver can start a new session. */
  lemma CancelRestarts(s: State, token: string)
    ensures Activate(Cancelled(s), token).1.Activated?
    ensures Cancelled(s).file.None? && Cancelled(s).info == map[] && Cancelled(s).remainTries == DEFAULT_NTRIES
  {}

  /**
   * A sender's REQUEST is accepted exactly when the receiver is idle, the
   * token is UTF-8 and the token check gives a value; the value is recorded.
   * An expired token is denied as expired, every other failure as invalid.
   */
  lemma RequestLaw(s: State, c: Config, payload: bytes)
    requires s.step == Idle
    ensures var (s', r) := OnRequest(s, c, payload);
      var token := Utf8.Decode(payload);
      (s'.step == Accepted <==> token.Some? && c.detoken(token.value).Value?) &&
      (s'.step == Accepted ==>
        s' == s.(step := Accepted, info := s.info["detoken_value" := c.detoken(token.value).value]) &&
        r == Reply(Some(Packet(Accept, [], [])), true, Unfinished)) &&
      (s'.step != Accepted ==>
        s' == s && r.Reply? && !r.cont && r.done.Finished? && !r.done.ok &&
        r.packet.Some? && r.packet.value.kind == ReceiverDeny &&
        r.done.reason == (if token.Some? && c.detoken(token.value).Expired? then EXPIRED_TOKEN else INVALID_TOKEN))
  {}

  /** The default token check accepts every token and records it. */
  lemma DefaultAcceptsAnyToken(s: State, forwarder: Option<string>, token: string)
    requires s.step == Idle
    ensures OnRequest(s, DefaultConfig(forwarder), Text(token)).0 == s.(step := Accepted, info := s.info["detoken_value" := token])
  {
    Utf8.DecodeEncode(token);
  }

  /** A DENY ends the session only if this receiver asked for the file. */
  lemma DenyLaw(s: State, payload: bytes)
    ensures OnDeny(s, payload).Reply? <==> s.step == Requesting
    ensures OnDeny(s, payload).Reply? ==> OnDeny(s, payload).done == Finished(false, "Deny", payload, map[])
  {}

  /** A range that ends inside `p` reads the same with more bytes after `p`. */
  lemma SliceExtended(p: bytes, extra: bytes, i: nat, j: nat)
    requires j <= |p|
    ensures Slice(p + extra, i, j) == Slice(p, i, j)
  {
    if i <= j {
      assert (p + extra)[i..j] == p[i..j];
    }
  }

  lemma ReadExtended(p: bytes, extra: bytes, at: nat)
    requires at + INT_SIZE <= |p|
    ensures ReadU32(p + extra, at) == ReadU32(p, at)
  {
    SliceExtended(p, extra, at, at + INT_SIZE);
  }

  /**
   * The INFO a sender builds for an ASCII name, followed by `extra` bytes,
   * reads as the sender's fields, with reading stopping where `extra` begins.
   */
  lemma ReadInfoExtended(name: string, digest: bytes, size: nat, extra: bytes)
    requires Utf8.IsAscii(name) && InfoPayload(name, digest, size).Some?
    ensures var p := InfoPayload(name, digest, size).value;
      ReadInfo(p + extra) == (InfoFields(Text(name), digest, size), |p|)
  {
    var p := InfoPayload(name, digest, size).value;
    var n := Text(name);
    Utf8.EncodeLength(name);
    InfoFieldsAt(n, digest, |name|, |digest|, size);
    ReadExtended(p, extra, 0);
    SliceExtended(p, extra, INT_SIZE, INT_SIZE + |n|);
    ReadExtended(p, extra, INT_SIZE + |n|);
    SliceExtended(p, extra, 2 * INT_SIZE + |n|, 2 * INT_SIZE + |n| + |digest|);
    ReadExtended(p, extra, 2 * INT_SIZE + |n| + |digest|);
    ReadInfoSteps(p + extra, n, digest, size);
  }

  /**
   * The INFO a sender builds for an ASCII name starts the transfer: an empty
   * copy, the announced size and digest, the name recorded, and a REQUIRE
   * that the sender reads as offset 0 with this receiver's buffer size.
   */
  lemma InfoStartsReceiving(s: State, c: Config, name: string, digest: bytes, size: nat, stamp: string)
    requires s.step == Accepted || s.step == Requesting
    requires Utf8.IsAscii(name) && InfoPayload(name, digest, size).Some? && c.bufferSize < TWO_32
    ensures var (s', r) := OnInfo(s, c, InfoPayload(name, digest, size).value, stamp);
      var base := BaseName(name);
      s' == s.(step := Receiving, file := Some([]), expectedSize := Some(size), expectedDigest := Some(digest),
               info := s.info["filename" := base]["path" := Join(c.directory, base + "." + stamp)]) &&
      r.Reply? && r.cont && r.done == Unfinished && r.packet.Some? && r.packet.value.kind == Require &&
      ReadRequire(r.packet.value.payload) == (0, c.bufferSize)
  {
    var p := InfoPayload(name, digest, size).value;
    ReadInfoExtended(name, digest, size, []);
    assert p + [] == p;
    InfoRoundTrip(name, digest, size);
    RequireRoundTrip(0, c.bufferSize);
    assert OnInfo(s, c, p, stamp) == StartReceiving(s, c, InfoFields(Text(name), digest, size), name, stamp);
  }

  /** Bytes after the last INFO field end the session with "Too many parameters", the state untouched. */
  lemma TooManyParameters(s: State, c: Config, name: string, digest: bytes, size: nat, extra: bytes, stamp: string)
    requires s.step == Accepted || s.step == Requesting
    requires Utf8.IsAscii(name) && InfoPayload(name, digest, size).Some? && extra != []
    ensures OnInfo(s, c, InfoPayload(name, digest, size).value + extra, stamp) == (s, Refusal(Failure, TOO_MANY_PARAMETERS))
  {
    var p := InfoPayload(name, digest, size).value;
    ReadInfoExtended(name, digest, size, extra);
    Utf8.DecodeEncode(name);
    assert From(p + extra, |p|) == extra;
  }

  /** A name whose length field undercounts its bytes cannot be read: "é" makes `resp_info` raise, the state untouched. */
  lemma NonAsciiNameRaises(s: State, c: Config, digest: bytes, size: nat, stamp: string)
    requires s.step == Accepted || s.step == Requesting
    requires |digest| < TWO_32 && size < TWO_32
    ensures OnInfo(s, c, InfoPayload("é", digest, size).value, stamp) == (s, Raised("UnicodeDecodeError"))
  {
    NonAsciiNameUnreadable(digest, size);
  }

  /* ---------------- resp_send ---------------- */

  /** A chunk at the wrong offset: a new REQUIRE for the same offset while tries remain, then FAILURE. */
  lemma WrongOffset(s: State, c: Config, hash: Hash, option: bytes, payload: bytes)
    requires s.step == Receiving && s.file.Some? && ReadU32(option, 0) != |s.file.value|
    requires RequirePayload(|s.file.value|, c.bufferSize).Some?
    ensures var (s', r) := OnSend(s, c, hash, option, payload);
      (s.remainTries > 0 ==> s' == s.(remainTries := s.remainTries - 1) && r.Reply? && r.cont && r.packet.Some? &&
                             r.packet.value.kind == Require && ReadRequire(r.packet.value.payload) == (|s.file.value|, c.bufferSize)) &&
      (s.remainTries == 0 ==> s' == s && r.Reply? && !r.cont && r.packet.Some? && r.packet.value.kind == Failure &&
                              r.done.Finished? && !r.done.ok)
  {
    RequireRoundTrip(|s.file.value|, c.bufferSize);
  }

  /** `n` chunks in a row, each answered by `resp_send`. */
  function Sends(s: State, c: Config, hash: Hash, option: bytes, payload: bytes, n: nat): State
  {
    if n == 0 then s else OnSend(Sends(s, c, hash, option, payload, n - 1), c, hash, option, payload).0
  }

  /** Each wrong offset uses up one try, and nothing else changes. */
  lemma {:induction false} RetriesUsed(s: State, c: Config, hash: Hash, option: bytes, payload: bytes, n: nat)
    requires s.step == Receiving && s.file.Some? && ReadU32(option, 0) != |s.file.value|
    requires RequirePayload(|s.file.value|, c.bufferSize).Some? && n <= s.remainTries
    ensures Sends(s, c, hash, option, payload, n) == s.(remainTries := s.remainTries - n)
  {
    if n > 0 {
      RetriesUsed(s, c, hash, option, payload, n - 1);
      WrongOffset(s.(remainTries := s.remainTries - (n - 1)), c, hash, option, payload);
    }
  }

  /**
   * The retry budget: a receiver with `k` tries left answers `k` chunks at a
   * wrong offset with REQUIRE and gives up with FAILURE on the next one.
   */
  lemma RetryBudget(s: State, c: Config, hash: Hash, option: bytes, payload: bytes)
    requires s.step == Receiving && s.file.Some? && ReadU32(option, 0) != |s.file.value|
    requires RequirePayload(|s.file.value|, c.bufferSize).Some?
    ensures var last := Sends(s, c, hash, option, payload, s.remainTries);
      last == s.(remainTries := 0) &&
      OnSend(last, c, hash, option, payload).1 ==
        Reply(Some(Packet(Failure, [], Ascii(WRONG_OFFSET))), false, Finished(false, "Wrong offset (tried 3 times)", [], map[]))
  {
    RetriesUsed(s, c, hash, option, payload, s.remainTries);
  }

  /** A chunk at the right offset is appended to the copy. */
  lemma RightOffsetAppends(s: State, c: Config, hash: Hash, option: bytes, payload: bytes)
    requires Valid(s) && s.step == Receiving && ReadU32(option, 0) == |s.file.value|
    ensures var s' := OnSend(s, c, hash, option, payload).0;
      s'.file == Some(s.file.value + payload) && s'.step == Receiving && s'.info == s.info &&
      s'.expectedSize == s.expectedSize && s'.expectedDigest == s.expectedDigest
  {}

  /** A copy that reaches the announced size ends the session: SUCCESS exactly when its digest is the announced one. */
  lemma CompletionChecksDigest(s: State, c: Config, hash: Hash, option: bytes, payload: bytes)
    requires Valid(s) && s.step == Receiving && ReadU32(option, 0) == |s.file.value|
    requires |s.file.value + payload| == s.expectedSize.value
    ensures var (s', r) := OnSend(s, c, hash, option, payload);
      s' == s.(file := Some(s.file.value + payload)) &&
      r.Reply? && !r.cont && r.packet.Some? && r.done.Finished? &&
      (r.done.ok <==> hash(s.file.value + payload) == s.expectedDigest.value) &&
      (r.done.ok ==> r == Reply(Some(Packet(Success, [], [])), false, Finished(true, "", [], s.info))) &&
      (!r.done.ok ==> r == Refusal(Failure, INTEGRITY_COMPROMISED))
  {}

  /** A copy still short of the announced size restores the retry budget and asks for the rest. */
  lemma ShortCopyContinues(s: State, c: Config, hash: Hash, option: bytes, payload: bytes)
    requires Valid(s) && s.step == Receiving && ReadU32(option, 0) == |s.file.value|
    requires |s.file.value + payload| < s.expectedSize.value
    requires RequirePayload(|s.file.value + payload|, c.bufferSize).Some?
    ensures var (s', r) := OnSend(s, c, hash, option, payload);
      s' == s.(file := Some(s.file.value + payload), remainTries := DEFAULT_NTRIES) &&
      r == Reply(Some(Packet(Require, [], RequirePayload(|s.file.value + payload|, c.bufferSize).value)), true, Unfinished) &&
      ReadRequire(r.packet.value.payload) == (|s.file.value + payload|, c.bufferSize)
  {
    RequireRoundTrip(|s.file.value + payload|, c.bufferSize);
  }

  /** A copy that overshoots the announced size ends the session with FAILURE. */
  lemma OvershootFails(s: State, c: Config, hash: Hash, option: bytes, payload: bytes)
    requires Valid(s) && s.step == Receiving && ReadU32(option, 0) == |s.file.value|
    requires |s.file.value + payload| > s.expectedSize.value
    ensures OnSend(s, c, hash, option, payload).1 == Refusal(Failure, RECEIVED_TOO_MUCH)
  {}

  /* ---------------- config ---------------- */

  /**
   * `config` rejects a directory that does not exist and a negative buffer
   * size; the directory is applied before the buffer size is checked, and
   * every accepted option replaces its setting.
   */
  lemma ConfigureLaw(c: Config, directory: Option<string>, bufferSize: Option<int>, detoken: Option<Detokenizer>,
                     forwarder: Option<string>, dirs: set<string>)
    ensures var (c', error) := Configure(c, directory, bufferSize, detoken, forwarder, dirs);
      var dirGiven := directory.Some? && directory.value != [];
      (error.Some? <==> (dirGiven && directory.value !in dirs) || (bufferSize.Some? && bufferSize.value < 0)) &&
      (dirGiven && directory.value !in dirs ==> c' == c) &&
      (c'.directory == if dirGiven && directory.value in dirs then directory.value else c.directory) &&
      (error.None? ==> c'.bufferSize == (if bufferSize.Some? && bufferSize.value > 0 then bufferSize.value else c.bufferSize))
  {}
}

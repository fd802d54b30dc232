/** What the earlier receiver's handlers guarantee, and where it gets stuck. */
module LegacyReceiverLaws {
  import opened Bytes
  import opened Wrappers
  import Utf8
  import opened Scheme
  import opened Transfer
  import opened LegacyReceiver
  import RL = ReceiverLaws

  /**
   * The byte counter, once set, belongs to a receiving session whose INFO
   * fields are all recorded, and it counts exactly what the open copy holds.
   */
  predicate Valid(s: State)
  {
    (s.offset.Some? ==> s.step == Receiving && s.filesize.Some? && s.expectedDigest.Some? &&
                        s.filename.Some? && s.recvFilename.Some?) &&
    (s.stream.Some? ==> s.offset.Some? && s.offset.value == |s.stream.value|) &&
    s.remainTry <= MAX_TRY
  }

  /** Every handler keeps the state valid, from the initial state on. */
  lemma ValidKept(s: State, c: Config, payload: bytes, stamp: string)
    requires Valid(s)
    ensures Valid(INITIAL) && Valid(Cancelled(s))
    ensures Valid(OnRequest(s, c, payload).0) && Valid(OnInfo(s, c, payload, stamp).0)
  {}

  /** SEND keeps the state valid. */
  lemma SendKeepsValid(s: State, c: Config, hash: Hash, option: bytes, payload: bytes)
    requires Valid(s)
    ensures Valid(OnSend(s, c, hash, option, payload).0)
  {}

  /** A REQUEST is accepted exactly when its token is UTF-8 and equals the configured one; a denial carries no payload. */
  lemma TokenLaw(s: State, c: Config, payload: bytes)
    requires s.step == Idle
    ensures var (s', r) := OnRequest(s, c, payload);
      (Utf8.Decode(payload) == Some(c.token) ==> s' == s.(step := Accepted) && r == Reply(Some(Packet(Accept, [], [])), true, Unfinished)) &&
      (Utf8.Decode(payload) != Some(c.token) ==>
         s' == s && r == Deny(if Utf8.Decode(payload).None? then "Invalid token." else "Token mismatched") &&
         r.packet.value.kind == ReceiverDeny && r.packet.value.payload == [])
  {}

  /** The configured token, sent as UTF-8, is accepted. */
  lemma OwnTokenAccepted(s: State, c: Config)
    requires s.step == Idle
    ensures OnRequest(s, c, Text(c.token)).0.step == Accepted
  {
    Utf8.DecodeEncode(c.token);
  }

  /** INFO with a name that decodes opens an empty copy, sets the counter to 0 and asks for the chunk at 0. */
  lemma InfoOpensCopy(s: State, c: Config, payload: bytes, stamp: string)
    requires Valid(s) && s.step == Accepted
    requires Utf8.Decode(ReadInfo(payload).0.nameBytes).Some? && RequirePayload(0, c.bufferSize).Some?
    ensures var fields := ReadInfo(payload).0;
      var recv := BaseName(Utf8.Decode(fields.nameBytes).value);
      var (s', r) := OnInfo(s, c, payload, stamp);
      s' == s.(step := Receiving, recvFilename := Some(recv), filename := Some(Join(c.directory, recv + "." + stamp)),
               stream := Some([]), expectedDigest := Some(fields.digest), filesize := Some(fields.size), offset := Some(0)) &&
      r.Reply? && r.cont && r.packet.Some? && r.packet.value.kind == Require &&
      ReadRequire(r.packet.value.payload) == (0, c.bufferSize)
  {
    RequireRoundTrip(0, c.bufferSize);
  }

  /** Bytes after the last INFO field are not looked at: an ASCII name is read back whatever follows it. */
  lemma TrailingBytesIgnored(name: string, digest: bytes, size: nat, extra: bytes)
    requires Utf8.IsAscii(name) && InfoPayload(name, digest, size).Some?
    ensures var fields := ReadInfo(InfoPayload(name, digest, size).value + extra).0;
      fields == InfoFields(Text(name), digest, size) && Utf8.Decode(fields.nameBytes) == Some(name)
  {
    RL.ReadInfoExtended(name, digest, size, extra);
    Utf8.DecodeEncode(name);
  }

  /** INFO whose name is not UTF-8 raises after the step has become receiving, with no counter set. */
  lemma BadNameSticks(s: State, c: Config, payload: bytes, stamp: string)
    requires Valid(s) && s.step == Accepted && Utf8.Decode(ReadInfo(payload).0.nameBytes).None?
    ensures OnInfo(s, c, payload, stamp) == (s.(step := Receiving), Raised("UnicodeDecodeError"))
    ensures s.(step := Receiving).offset.None?
  {}

  /** What the receiver can be sent besides `cancel`. */
  datatype Message = SendMsg(option: bytes, payload: bytes) | InfoMsg(payload: bytes, stamp: string) | RequestMsg(payload: bytes)

  function Handle(s: State, c: Config, hash: Hash, m: Message): (State, Reply<ReceiverKind>)
  {
    match m
    case SendMsg(option, payload) => OnSend(s, c, hash, option, payload)
    case InfoMsg(payload, stamp) => OnInfo(s, c, payload, stamp)
    case RequestMsg(payload) => OnRequest(s, c, payload)
  }

  /** The state after the messages `ms`, in order. */
  function Deliver(s: State, c: Config, hash: Hash, ms: seq<Message>): State
    decreases |ms|
  {
    if ms == [] then s else Deliver(Handle(s, c, hash, ms[0]).0, c, hash, ms[1..])
  }

  /** A receiving state without a counter: every SEND raises, INFO and REQUEST are ignored, and nothing changes. */
  predicate Stuck(s: State)
  {
    s.step == Receiving && s.offset.None? && s.remainTry > 0
  }

  lemma StuckHandles(s: State, c: Config, hash: Hash, m: Message)
    requires Stuck(s)
    ensures Handle(s, c, hash, m) == (s, if m.SendMsg? then Raised("AttributeError") else Ignored(""))
  {}

  /** No sequence of messages gets a stuck receiver out; only `cancel` does. */
  lemma {:induction false} StuckForever(s: State, c: Config, hash: Hash, ms: seq<Message>)
    requires Stuck(s)
    decreases |ms|
    ensures Deliver(s, c, hash, ms) == s
    ensures Cancelled(s) == INITIAL.(recvFilename := s.recvFilename) && Cancelled(s).step == Idle
  {
    if ms != [] {
      StuckHandles(s, c, hash, ms[0]);
      StuckForever(s, c, hash, ms[1..]);
    }
  }

  /** The undecodable name of BadNameSticks leaves the receiver stuck, from a state the handlers can reach. */
  lemma BadNameAfterAccept(s: State, c: Config, payload: bytes, stamp: string)
    requires Valid(s) && s.step == Accepted && Utf8.Decode(ReadInfo(payload).0.nameBytes).None? && s.remainTry > 0
    ensures Stuck(OnInfo(s, c, payload, stamp).0)
  {
    BadNameSticks(s, c, payload, stamp);
  }

  /** A chunk at another offset than the counter's: asked for again while tries remain, then FAILURE. */
  lemma WrongOffset(s: State, c: Config, hash: Hash, option: bytes, payload: bytes)
    requires Valid(s) && s.step == Receiving && s.offset.Some? && ReadU32(option, 0) != s.offset.value
    requires RequirePayload(s.offset.value, c.bufferSize).Some?
    ensures var (s', r) := OnSend(s, c, hash, option, payload);
      (s.remainTry > 0 ==> s' == s.(remainTry := s.remainTry - 1) && r.Reply? && r.cont && r.packet.Some? &&
                           r.packet.value.kind == Require && ReadRequire(r.packet.value.payload) == (s.offset.value, c.bufferSize)) &&
      (s.remainTry == 0 ==> s' == s && r == Failed(Ascii(WRONG_OFFSET), "Wrong offset (tried 3 times)"))
  {
    RequireRoundTrip(s.offset.value, c.bufferSize);
  }

  /** A chunk at the counter's offset is appended, and the counter advances by its length. */
  lemma RightOffsetCounts(s: State, c: Config, hash: Hash, option: bytes, payload: bytes)
    requires Valid(s) && s.step == Receiving && s.stream.Some? && ReadU32(option, 0) == s.offset.value
    ensures var s' := OnSend(s, c, hash, option, payload).0;
      s'.offset == Some(|s.stream.value + payload|) &&
      (s'.stream.Some? ==> s'.stream == Some(s.stream.value + payload)) &&
      (s'.stream.None? <==> |s.stream.value + payload| == s.filesize.value)
  {}

  /**
   * The chunk that completes the announced size closes the copy; SUCCESS,
   * with the local and the announced name, exactly when the digest matches.
   */
  lemma CompletionChecksDigest(s: State, c: Config, hash: Hash, option: bytes, payload: bytes)
    requires Valid(s) && s.step == Receiving && s.stream.Some? && ReadU32(option, 0) == s.offset.value
    requires |s.stream.value + payload| == s.filesize.value
    ensures var copy := s.stream.value + payload;
      var (s', r) := OnSend(s, c, hash, option, payload);
      s' == s.(stream := None, offset := Some(|copy|)) &&
      (hash(copy) == s.expectedDigest.value ==>
         r == Reply(Some(Packet(Success, [], [])), false,
                    Finished(true, "", [], map["filename" := s.filename.value, "recv_filename" := s.recvFilename.value]))) &&
      (hash(copy) != s.expectedDigest.value ==> r == Failed(Ascii(INTEGRITY_COMPROMISED), INTEGRITY_COMPROMISED))
  {}

  /** A short copy asks for the next chunk with a full set of tries; an overlong one fails. */
  lemma IncompleteCopy(s: State, c: Config, hash: Hash, option: bytes, payload: bytes)
    requires Valid(s) && s.step == Receiving && s.stream.Some? && ReadU32(option, 0) == s.offset.value
    requires |s.stream.value + payload| != s.filesize.value
    ensures var copy := s.stream.value + payload;
      var (s', r) := OnSend(s, c, hash, option, payload);
      (|copy| > s.filesize.value ==> s' == s.(stream := Some(copy), offset := Some(|copy|)) &&
                                     r == Failed(Ascii(RECEIVED_TOO_MUCH), RECEIVED_TOO_MUCH)) &&
      (|copy| < s.filesize.value && RequirePayload(|copy|, c.bufferSize).Some? ==>
         s' == s.(stream := Some(copy), offset := Some(|copy|), remainTry := MAX_TRY) &&
         r == Reply(Some(Packet(Require, [], RequirePayload(|copy|, c.bufferSize).value)), true, Unfinished) &&
         ReadRequire(RequirePayload(|copy|, c.bufferSize).value) == (|copy|, c.bufferSize))
  {
    var copy := s.stream.value + payload;
    if |copy| < s.filesize.value && RequirePayload(|copy|, c.bufferSize).Some? {
      RequireRoundTrip(|copy|, c.bufferSize);
    }
  }

  /** Once the copy is closed, a further chunk at the counter's offset cannot be written and fails. */
  lemma ClosedRefusesWrites(s: State, c: Config, hash: Hash, option: bytes, payload: bytes)
    requires s.step == Receiving && s.stream.None? && s.offset == Some(ReadU32(option, 0))
    ensures OnSend(s, c, hash, option, payload) == (s, Failed(Ascii(WRITE_FAILED), "Unknown error"))
  {}

  /** `config` rejects a missing directory and a negative buffer size; a non-empty token replaces the configured one. */
  lemma ConfigureLaw(c: Config, directory: Option<string>, token: Option<string>, bufferSize: Option<int>, dirs: set<string>)
    ensures var (c', error) := Configure(c, directory, token, bufferSize, dirs);
      var dirGiven := directory.Some? && directory.value != [];
      (error.Some? <==> (dirGiven && directory.value !in dirs) || (bufferSize.Some? && bufferSize.value < 0)) &&
      (error.None? ==> c'.directory == (if dirGiven then directory.value else c.directory) &&
                       c'.bufferSize == (if bufferSize.Some? && bufferSize.value > 0 then bufferSize.value else c.bufferSize) &&
                       c'.token == (if token.Some? && token.value != [] then token.value else c.token))
  {}
}

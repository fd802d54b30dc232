/**
 * The receiving end of a transfer (`SFTReceiverScheme`): it asks for a file
 * or accepts a sender's request, learns the file's name, size and digest
 * from INFO, then asks for the bytes from the current end of its copy with
 * REQUIRE until the copy is complete, and checks the digest.
 */
module Receiver {
  import opened Bytes
  import opened Wrappers
  import Utf8
  import opened Scheme
  import opened Transfer

  datatype Step = Idle | Requesting | Accepted | Receiving

  /** What `config` sets. */
  datatype Config = Config(directory: string, detoken: Detokenizer, bufferSize: nat, forwarder: Option<string>)

  /**
   * The session state. `file` is the copy being written, None when no file
   * is open; `info` is the dictionary reported on success.
   */
  datatype State = State(step: Step, file: Option<bytes>, expectedSize: Option<nat>, expectedDigest: Option<bytes>,
                         remainTries: nat, info: map<string, string>)

  /** The reasons a receiver gives when it ends a session. */
  const INVALID_TOKEN: string := "Invalid token"
  const EXPIRED_TOKEN: string := "Expired token"
  const TOO_MANY_PARAMETERS: string := "Too many parameters"
  const INTEGRITY_COMPROMISED: string := "Integrity is compromised"
  const RECEIVED_TOO_MUCH: string := "Received too much"
  const WRONG_OFFSET: string := "Wrong offset."

  const INITIAL: State := State(Idle, None, None, None, DEFAULT_NTRIES, map[])

  function DefaultConfig(forwarder: Option<string>): Config
  {
    Config("./", x => Value(x), DEFAULT_BUFFER_SIZE, forwarder)
  }

  /**
   * `config`, for the options given (an empty string or a zero counts as not
   * given). Options are applied in order, so one applied before a rejected
   * one stays applied; `dirs` are the directories that exist.
   */
  function Configure(c: Config, directory: Option<string>, bufferSize: Option<int>, detoken: Option<Detokenizer>,
                     forwarder: Option<string>, dirs: set<string>): (Config, Option<string>)
  {
    if directory.Some? && directory.value != [] && directory.value !in dirs then (c, Some("Directory is not found."))
    else
      var c1 := if directory.Some? && directory.value != [] then c.(directory := directory.value) else c;
      if bufferSize.Some? && bufferSize.value != 0 && bufferSize.value < 0 then
        (c1, Some("Buffer size must be a positive integer."))
      else
        var c2 := if bufferSize.Some? && bufferSize.value > 0 then c1.(bufferSize := bufferSize.value) else c1;
        var c3 := if detoken.Some? then c2.(detoken := detoken.value) else c2;
        var c4 := if forwarder.Some? && forwarder.value != [] then c3.(forwarder := forwarder) else c3;
        (c4, None)
  }

  /** `cancel`. */
  function Cancelled(s: State): State
  {
    INITIAL
  }

  /** `activation`: send REQUEST with the token, only from the idle step. */
  function Activate(s: State, token: string): (State, Activation<ReceiverKind>)
  {
    if s.step != Idle then (s, Inactive)
    else (s.(step := Requesting), Activated(Packet(ReceiverRequest, [], Text(token))))
  }

  /** `resp_ignore`. */
  function OnIgnore(payload: bytes): Reply<ReceiverKind>
  {
    Reply(None, false, Finished(false, "Ignore", payload, map[]))
  }

  /** `resp_deny`: the sender refused the request this receiver made. */
  function OnDeny(s: State, payload: bytes): Reply<ReceiverKind>
  {
    if s.step == Requesting then Reply(None, false, Finished(false, "Deny", payload, map[]))
    else Ignored("Invalid step")
  }

  function Refusal(kind: ReceiverKind, text: string): Reply<ReceiverKind>
  {
    Reply(Some(Packet(kind, [], Ascii(text))), false, Finished(false, text, [], map[]))
  }

  /** `resp_request`: a sender asks to send; its token must decode and pass the token check. */
  function OnRequest(s: State, c: Config, payload: bytes): (State, Reply<ReceiverKind>)
  {
    if s.step != Idle then (s, Ignored("Invalid step"))
    else
      match Utf8.Decode(payload)
      case None => (s, Refusal(ReceiverDeny, INVALID_TOKEN))
      case Some(token) =>
        match c.detoken(token)
        case Expired => (s, Refusal(ReceiverDeny, EXPIRED_TOKEN))
        case Invalid => (s, Refusal(ReceiverDeny, INVALID_TOKEN))
        case Value(v) =>
          (s.(info := s.info["detoken_value" := v], step := Accepted), Reply(Some(Packet(Accept, [], [])), true, Unfinished))
  }

  /** `__get_require_packet`: REQUIRE from the current size of the copy. Err holds the exception raised. */
  function RequirePacket(s: State, c: Config): Result<Packet<ReceiverKind>, string>
  {
    if s.file.None? then Err("AttributeError")
    else
      match RequirePayload(|s.file.value|, c.bufferSize)
      case None => Err("OverflowError")
      case Some(p) => Ok(Packet(Require, [], p))
  }

  /** `resp_info`: the file's name, digest and size; a fresh empty copy and the first REQUIRE. `stamp` names the copy. */
  function OnInfo(s: State, c: Config, payload: bytes, stamp: string): (State, Reply<ReceiverKind>)
  {
    if s.step != Accepted && s.step != Requesting then (s, Ignored("Invalid step"))
    else
      var read := ReadInfo(payload);
      match Utf8.Decode(read.0.nameBytes)
      case None => (s, Raised("UnicodeDecodeError"))
      case Some(filename) =>
        if |From(payload, read.1)| > 0 then (s, Refusal(Failure, TOO_MANY_PARAMETERS))
        else StartReceiving(s, c, read.0, filename, stamp)
  }

  /** The second half of `resp_info`: open an empty copy of the announced file and ask for it from offset 0. */
  function StartReceiving(s: State, c: Config, fields: InfoFields, filename: string, stamp: string): (State, Reply<ReceiverKind>)
  {
    var original := BaseName(filename);
    var path := Join(c.directory, original + "." + stamp);
    var s1 := s.(file := Some([]), expectedDigest := Some(fields.digest), expectedSize := Some(fields.size),
                 step := Receiving);
    match RequirePacket(s1, c)
    case Err(e) => (s1, Raised(e))
    case Ok(p) => (s1.(info := s1.info["filename" := original]["path" := path]), Reply(Some(p), true, Unfinished))
  }

  /**
   * `resp_send`: a chunk at `offset`. A wrong offset is answered with a new
   * REQUIRE while tries remain; a chunk at the right offset is appended, and
   * the copy is checked once it reaches the expected size.
   */
  function OnSend(s: State, c: Config, hash: Hash, option: bytes, payload: bytes): (State, Reply<ReceiverKind>)
  {
    if s.step != Receiving then (s, Ignored("Invalid step"))
    else if s.file.None? then (s, Raised("AttributeError"))
    else if ReadU32(option, 0) != |s.file.value| then
      if s.remainTries > 0 then
        match RequirePacket(s, c)
        case Err(e) => (s, Raised(e))
        case Ok(p) => (s.(remainTries := s.remainTries - 1), Reply(Some(p), true, Unfinished))
      else (s, Reply(Some(Packet(Failure, [], Ascii(WRONG_OFFSET))), false,
                     Finished(false, "Wrong offset (tried 3 times)", [], map[])))
    else
      var copy := s.file.value + payload;
      var s1 := s.(file := Some(copy));
      if s.expectedSize == Some(|copy|) then
        if s.expectedDigest != Some(hash(copy)) then (s1, Refusal(Failure, INTEGRITY_COMPROMISED))
        else (s1, Reply(Some(Packet(Success, [], [])), false, Finished(true, "", [], s1.info)))
      else if s.expectedSize.None? then (s1, Raised("TypeError"))
      else if |copy| > s.expectedSize.value then (s1, Refusal(Failure, RECEIVED_TOO_MUCH))
      else
        var s2 := s1.(remainTries := DEFAULT_NTRIES);
        match RequirePacket(s2, c)
        case Err(e) => (s2, Raised(e))
        case Ok(p) => (s2, Reply(Some(p), true, Unfinished))
  }

  /* ---------------- the scheme object ---------------- */

  class ReceiverScheme {
    var step: Step
    var file: Option<bytes>
    var expectedSize: Option<nat>
    var expectedDigest: Option<bytes>
    var remainTries: nat
    var info: map<string, string>
    var directory: string
    var detoken: Detokenizer
    var bufferSize: nat
    var forwarder: Option<string>
    /** The hash `FileWriter.digest` applies to the copy. */
    const hash: Hash

    function Snapshot(): State
      reads this
    {
      State(step, file, expectedSize, expectedDigest, remainTries, info)
    }

    function Settings(): Config
      reads this
    {
      Config(directory, detoken, bufferSize, forwarder)
    }

    constructor (forwarder: Option<string>, hash: Hash)
      ensures Snapshot() == INITIAL && Settings() == DefaultConfig(forwarder) && this.hash == hash
    {
      this.forwarder := forwarder;
      directory := "./";
      detoken := x => Value(x);
      bufferSize := DEFAULT_BUFFER_SIZE;
      step := Idle;
      file := None;
      expectedSize := None;
      expectedDigest := None;
      remainTries := DEFAULT_NTRIES;
      info := map[];
      this.hash := hash;
    }

    method SetConfig(directory: Option<string>, bufferSize: Option<int>, detoken: Option<Detokenizer>,
                  forwarder: Option<string>, dirs: set<string>) returns (error: Option<string>)
      modifies this
      ensures (Settings(), error) == Configure(old(Settings()), directory, bufferSize, detoken, forwarder, dirs)
      ensures Snapshot() == old(Snapshot())
    {
      if directory.Some? && directory.value != [] {
        if directory.value !in dirs {
          return Some("Directory is not found.");
        }
        this.directory := directory.value;
      }
      if bufferSize.Some? && bufferSize.value != 0 {
        if bufferSize.value <= 0 {
          return Some("Buffer size must be a positive integer.");
        }
        this.bufferSize := bufferSize.value;
      }
      if detoken.Some? {
        this.detoken := detoken.value;
      }
      if forwarder.Some? && forwarder.value != [] {
        this.forwarder := forwarder;
      }
      error := None;
    }

    method Cancel()
      modifies this
      ensures Snapshot() == Cancelled(old(Snapshot())) && Settings() == old(Settings())
    {
      step := Idle;
      file := None;
      expectedSize := None;
      expectedDigest := None;
      remainTries := DEFAULT_NTRIES;
      info := map[];
    }

    method Activation(token: string) returns (r: Activation<ReceiverKind>)
      modifies this
      ensures (Snapshot(), r) == Activate(old(Snapshot()), token) && Settings() == old(Settings())
    {
      if step != Idle {
        return Inactive;
      }
      step := Requesting;
      r := Activated(Packet(ReceiverRequest, [], Text(token)));
    }

    method RespDeny(payload: bytes) returns (r: Reply<ReceiverKind>)
      ensures r == OnDeny(Snapshot(), payload)
    {
      if step == Requesting {
        r := Reply(None, false, Finished(false, "Deny", payload, map[]));
      } else {
        r := Ignored("Invalid step");
      }
    }

    method RespRequest(payload: bytes) returns (r: Reply<ReceiverKind>)
      modifies this
      ensures (Snapshot(), r) == OnRequest(old(Snapshot()), Settings(), payload) && Settings() == old(Settings())
    {
      if step != Idle {
        return Ignored("Invalid step");
      }
      var token := Utf8.Decode(payload);
      if token.None? {
        return Refusal(ReceiverDeny, INVALID_TOKEN);
      }
      var checked := detoken(token.value);
      if checked.Expired? {
        return Refusal(ReceiverDeny, EXPIRED_TOKEN);
      } else if checked.Invalid? {
        return Refusal(ReceiverDeny, INVALID_TOKEN);
      }
      info := info["detoken_value" := checked.value];
      step := Accepted;
      r := Reply(Some(Packet(Accept, [], [])), true, Unfinished);
    }

    method GetRequirePacket() returns (r: Result<Packet<ReceiverKind>, string>)
      ensures r == RequirePacket(Snapshot(), Settings())
    {
      if file.None? {
        return Err("AttributeError");
      }
      var payload := RequirePayload(|file.value|, bufferSize);
      if payload.None? {
        return Err("OverflowError");
      }
      r := Ok(Packet(Require, [], payload.value));
    }

    method RespInfo(payload: bytes, stamp: string) returns (r: Reply<ReceiverKind>)
      modifies this
      ensures (Snapshot(), r) == OnInfo(old(Snapshot()), Settings(), payload, stamp) && Settings() == old(Settings())
    {
      if step != Accepted && step != Requesting {
        return Ignored("Invalid step");
      }
      var (fields, end) := ReadInfo(payload);
      var filename := Utf8.Decode(fields.nameBytes);
      if filename.None? {
        return Raised("UnicodeDecodeError");
      }
      if |From(payload, end)| > 0 {
        return Refusal(Failure, TOO_MANY_PARAMETERS);
      }
      r := StartReceivingFile(fields, filename.value, stamp);
    }

    /** The second half of `resp_info`, once the announcement is read. */
    method StartReceivingFile(fields: InfoFields, filename: string, stamp: string) returns (r: Reply<ReceiverKind>)
      modifies this
      ensures (Snapshot(), r) == StartReceiving(old(Snapshot()), Settings(), fields, filename, stamp)
      ensures Settings() == old(Settings())
    {
      var original := BaseName(filename);
      var path := Join(directory, original + "." + stamp);
      file := Some([]);
      expectedDigest := Some(fields.digest);
      expectedSize := Some(fields.size);
      step := Receiving;
      var packet := GetRequirePacket();
      if packet.Err? {
        return Raised(packet.error);
      }
      info := info["filename" := original]["path" := path];
      r := Reply(Some(packet.value), true, Unfinished);
    }

    method RespSend(option: bytes, payload: bytes) returns (r: Reply<ReceiverKind>)
      modifies this
      ensures (Snapshot(), r) == OnSend(old(Snapshot()), Settings(), hash, option, payload) && Settings() == old(Settings())
    {
      if step != Receiving {
        return Ignored("Invalid step");
      }
      if file.None? {
        return Raised("AttributeError");
      }
      var offset := ReadU32(option, 0);
      if offset != |file.value| {
        if remainTries > 0 {
          var packet := GetRequirePacket();
          if packet.Err? {
            return Raised(packet.error);
          }
          remainTries := remainTries - 1;
          return Reply(Some(packet.value), true, Unfinished);
        }
        return Reply(Some(Packet(Failure, [], Ascii(WRONG_OFFSET))), false,
                     Finished(false, "Wrong offset (tried 3 times)", [], map[]));
      }
      file := Some(file.value + payload);
      if expectedSize == Some(|file.value|) {
        if expectedDigest != Some(hash(file.value)) {
          return Refusal(Failure, INTEGRITY_COMPROMISED);
        }
        return Reply(Some(Packet(Success, [], [])), false, Finished(true, "", [], info));
      } else if expectedSize.None? {
        return Raised("TypeError");
      } else if |file.value| > expectedSize.value {
        return Refusal(Failure, RECEIVED_TOO_MUCH);
      }
      remainTries := DEFAULT_NTRIES;
      var packet := GetRequirePacket();
      if packet.Err? {
        return Raised(packet.error);
      }
      r := Reply(Some(packet.value), true, Unfinished);
    }
  }
}

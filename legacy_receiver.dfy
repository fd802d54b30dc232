/**
 * The earlier receiving scheme. It differs from the current one in where it
 * keeps the transfer's position (a counter of bytes written, not the size of
 * the copy), in checking a fixed token instead of calling a token check, in
 * entering the receiving step before it parses INFO, and in ignoring bytes
 * after the last INFO field.
 */
module LegacyReceiver {
  import opened Bytes
  import opened Wrappers
  import Utf8
  import opened Scheme
  import opened Transfer

  datatype Step = Idle | Accepted | Receiving

  datatype Config = Config(directory: string, token: string, bufferSize: nat)

  /**
   * The session state. `stream` is what has been written to the open copy,
   * None once it is closed; `offset` counts the bytes written; `recvFilename`
   * is the name the sender announced, which `cancel` leaves as it is.
   */
  datatype State = State(step: Step, filename: Option<string>, recvFilename: Option<string>, stream: Option<bytes>,
                         offset: Option<nat>, filesize: Option<nat>, expectedDigest: Option<bytes>, remainTry: nat)

  const MAX_TRY: nat := 3

  const INITIAL: State := State(Idle, None, None, None, None, None, None, MAX_TRY)

  const WRONG_OFFSET: string := "Wrong offset."
  const INTEGRITY_COMPROMISED: string := "Integrity is compromised"
  const RECEIVED_TOO_MUCH: string := "Received too much"
  /** What a failed write reports; the exception's own text is not modelled. */
  const WRITE_FAILED: string := "AttributeError"

  function DefaultConfig(): Config
  {
    Config("./", DEFAULT_TOKEN, DEFAULT_BUFFER_SIZE)
  }

  /** `config`; `dirs` are the directories that exist. */
  function Configure(c: Config, directory: Option<string>, token: Option<string>, bufferSize: Option<int>,
                     dirs: set<string>): (Config, Option<string>)
  {
    if directory.Some? && directory.value != [] && directory.value !in dirs then (c, Some("Directory is not found."))
    else
      var c1 := if directory.Some? && directory.value != [] then c.(directory := directory.value) else c;
      if bufferSize.Some? && bufferSize.value < 0 then (c1, Some("Buffer size must be a positive integer."))
      else
        var c2 := if bufferSize.Some? && bufferSize.value > 0 then c1.(bufferSize := bufferSize.value) else c1;
        var c3 := if token.Some? && token.value != [] then c2.(token := token.value) else c2;
        (c3, None)
  }

  /** `cancel`: everything but the announced name goes back to its initial value. */
  function Cancelled(s: State): State
  {
    INITIAL.(recvFilename := s.recvFilename)
  }

  /** `resp_ignore`. */
  function OnIgnore(): Reply<ReceiverKind>
  {
    Reply(None, false, Finished(false, "Ignored.", [], map[]))
  }

  function Deny(reason: string): Reply<ReceiverKind>
  {
    Reply(Some(Packet(ReceiverDeny, [], [])), false, Finished(false, reason, [], map[]))
  }

  /** `resp_request`: the sender's token must be UTF-8 and equal the configured one. */
  function OnRequest(s: State, c: Config, payload: bytes): (State, Reply<ReceiverKind>)
  {
    if s.step != Idle then (s, Ignored(""))
    else
      match Utf8.Decode(payload)
      case None => (s, Deny("Invalid token."))
      case Some(token) =>
        if token != c.token then (s, Deny("Token mismatched"))
        else (s.(step := Accepted), Reply(Some(Packet(Accept, [], [])), true, Unfinished))
  }

  /** `__get_require_packet`, from the byte counter. Err holds the exception raised. */
  function RequirePacket(s: State, c: Config): Result<Packet<ReceiverKind>, string>
  {
    if s.offset.None? then Err("AttributeError")
    else
      match RequirePayload(s.offset.value, c.bufferSize)
      case None => Err("OverflowError")
      case Some(p) => Ok(Packet(Require, [], p))
  }

  /**
   * `resp_info`: the step becomes receiving before the payload is parsed, so
   * a name that is not UTF-8 raises with the step already changed.
   */
  function OnInfo(s: State, c: Config, payload: bytes, stamp: string): (State, Reply<ReceiverKind>)
  {
    if s.step != Accepted then (s, Ignored(""))
    else
      var s1 := s.(step := Receiving);
      var (fields, _) := ReadInfo(payload);
      match Utf8.Decode(fields.nameBytes)
      case None => (s1, Raised("UnicodeDecodeError"))
      case Some(filename) => OpenCopy(s1, c, fields, filename, stamp)
  }

  /** The second half of `resp_info`: an empty copy, the counter at 0, and the first REQUIRE. */
  function OpenCopy(s: State, c: Config, fields: InfoFields, filename: string, stamp: string): (State, Reply<ReceiverKind>)
  {
    var recv := BaseName(filename);
    var s1 := s.(recvFilename := Some(recv), filename := Some(Join(c.directory, recv + "." + stamp)), stream := Some([]),
                 expectedDigest := Some(fields.digest), filesize := Some(fields.size), offset := Some(0));
    match RequirePacket(s1, c)
    case Err(e) => (s1, Raised(e))
    case Ok(p) => (s1, Reply(Some(p), true, Unfinished))
  }

  function Failed(payload: bytes, reason: string): Reply<ReceiverKind>
  {
    Reply(Some(Packet(Failure, [], payload)), false, Finished(false, reason, [], map[]))
  }

  /**
   * `resp_send`: a chunk at `offset`, compared with the byte counter. A chunk
   * at the right offset is appended and counted; once the count reaches the
   * announced size the copy is closed and its digest checked.
   */
  function OnSend(s: State, c: Config, hash: Hash, option: bytes, payload: bytes): (State, Reply<ReceiverKind>)
  {
    if s.step != Receiving then (s, Ignored(""))
    else if s.offset != Some(ReadU32(option, 0)) then Misplaced(s, c)
    else if s.stream.None? then (s, Failed(Ascii(WRITE_FAILED), "Unknown error"))
    else Append(s, c, hash, payload)
  }

  /** A chunk at another offset than the counter's: asked for again, at most `remainTry` times. */
  function Misplaced(s: State, c: Config): (State, Reply<ReceiverKind>)
  {
    if s.remainTry > 0 then
      match RequirePacket(s, c)
      case Err(e) => (s, Raised(e))
      case Ok(p) => (s.(remainTry := s.remainTry - 1), Reply(Some(p), true, Unfinished))
    else (s, Failed(Ascii(WRONG_OFFSET), "Wrong offset (tried 3 times)"))
  }

  /** The name a finished transfer reports; the source reports None where no name was recorded. */
  function NameOf(name: Option<string>): string
  {
    if name.Some? then name.value else ""
  }

  /** A chunk at the counter's offset, written to the open copy. */
  function Append(s: State, c: Config, hash: Hash, payload: bytes): (State, Reply<ReceiverKind>)
    requires s.stream.Some? && s.offset.Some?
  {
    var copy := s.stream.value + payload;
    var count := s.offset.value + |payload|;
    var s1 := s.(stream := Some(copy), offset := Some(count));
    if Some(count) == s.filesize then Close(s1, hash, copy)
    else if s.filesize.None? then (s1, Raised("TypeError"))
    else if count > s.filesize.value then (s1, Failed(Ascii(RECEIVED_TOO_MUCH), RECEIVED_TOO_MUCH))
    else
      var s2 := s1.(remainTry := MAX_TRY);
      match RequirePacket(s2, c)
      case Err(e) => (s2, Raised(e))
      case Ok(p) => (s2, Reply(Some(p), true, Unfinished))
  }

  /** The copy is complete: it is closed and its digest compared with the announced one. */
  function Close(s: State, hash: Hash, copy: bytes): (State, Reply<ReceiverKind>)
  {
    var s1 := s.(stream := None);
    if Some(hash(copy)) != s.expectedDigest then (s1, Failed(Ascii(INTEGRITY_COMPROMISED), INTEGRITY_COMPROMISED))
    else
      (s1, Reply(Some(Packet(Success, [], [])), false,
                 Finished(true, "", [], map["filename" := NameOf(s.filename), "recv_filename" := NameOf(s.recvFilename)])))
  }

  /* ---------------- the scheme object ---------------- */

  class LegacyReceiverScheme {
    var step: Step
    var filename: Option<string>
    var recvFilename: Option<string>
    var stream: Option<bytes>
    var offset: Option<nat>
    var filesize: Option<nat>
    var expectedDigest: Option<bytes>
    var remainTry: nat
    var directory: string
    var token: string
    var bufferSize: nat
    /** The hash `get_file_digest` applies to the copy. */
    const hash: Hash

    function Snapshot(): State
      reads this
    {
      State(step, filename, recvFilename, stream, offset, filesize, expectedDigest, remainTry)
    }

    function Settings(): Config
      reads this
    {
      Config(directory, token, bufferSize)
    }

    constructor (hash: Hash)
      ensures Snapshot() == INITIAL && Settings() == DefaultConfig() && this.hash == hash
    {
      directory := "./";
      token := DEFAULT_TOKEN;
      bufferSize := DEFAULT_BUFFER_SIZE;
      step := Idle;
      filename := None;
      recvFilename := None;
      stream := None;
      offset := None;
      filesize := None;
      expectedDigest := None;
      remainTry := MAX_TRY;
      this.hash := hash;
    }

    method SetConfig(directory: Option<string>, token: Option<string>, bufferSize: Option<int>, dirs: set<string>)
      returns (error: Option<string>)
      modifies this
      ensures (Settings(), error) == Configure(old(Settings()), directory, token, bufferSize, dirs)
      ensures Snapshot() == old(Snapshot())
    {
      if directory.Some? && directory.value != [] {
        if directory.value !in dirs {
          return Some("Directory is not found.");
        }
        this.directory := directory.value;
      }
      if bufferSize.Some? && bufferSize.value != 0 {
        if bufferSize.value <= 0 {
          return Some("Buffer size must be a positive integer.");
        }
        this.bufferSize := bufferSize.value;
      }
      if token.Some? && token.value != [] {
        this.token := token.value;
      }
      error := None;
    }

    method Cancel()
      modifies this
      ensures Snapshot() == Cancelled(old(Snapshot())) && Settings() == old(Settings())
    {
      step := Idle;
      filename := None;
      stream := None;
      offset := None;
      filesize := None;
      expectedDigest := None;
      remainTry := MAX_TRY;
    }

    method RespRequest(payload: bytes) returns (r: Reply<ReceiverKind>)
      modifies this
      ensures (Snapshot(), r) == OnRequest(old(Snapshot()), Settings(), payload) && Settings() == old(Settings())
    {
      if step != Idle {
        return Ignored("");
      }
      var received := Utf8.Decode(payload);
      if received.None? {
        return Deny("Invalid token.");
      }
      if received.value != token {
        return Deny("Token mismatched");
      }
      step := Accepted;
      r := Reply(Some(Packet(Accept, [], [])), true, Unfinished);
    }

    method GetRequirePacket() returns (r: Result<Packet<ReceiverKind>, string>)
      ensures r == RequirePacket(Snapshot(), Settings())
    {
      if offset.None? {
        return Err("AttributeError");
      }
      var payload := RequirePayload(offset.value, bufferSize);
      if payload.None? {
        return Err("OverflowError");
      }
      r := Ok(Packet(Require, [], payload.value));
    }

    method RespInfo(payload: bytes, stamp: string) returns (r: Reply<ReceiverKind>)
      modifies this
      ensures (Snapshot(), r) == OnInfo(old(Snapshot()), Settings(), payload, stamp) && Settings() == old(Settings())
    {
      if step != Accepted {
        return Ignored("");
      }
      step := Receiving;
      var (fields, _) := ReadInfo(payload);
      var name := Utf8.Decode(fields.nameBytes);
      if name.None? {
        return Raised("UnicodeDecodeError");
      }
      r := OpenReceiving(fields, name.value, stamp);
    }

    method OpenReceiving(fields: InfoFields, name: string, stamp: string) returns (r: Reply<ReceiverKind>)
      modifies this
      ensures (Snapshot(), r) == OpenCopy(old(Snapshot()), Settings(), fields, name, stamp) && Settings() == old(Settings())
    {
      recvFilename := Some(BaseName(name));
      filename := Some(Join(directory, recvFilename.value + "." + stamp));
      stream := Some([]);
      expectedDigest := Some(fields.digest);
      filesize := Some(fields.size);
      offset := Some(0);
      var packet := GetRequirePacket();
      if packet.Err? {
        return Raised(packet.error);
      }
      r := Reply(Some(packet.value), true, Unfinished);
    }

    method RespSend(option: bytes, payload: bytes) returns (r: Reply<ReceiverKind>)
      modifies this
      ensures (Snapshot(), r) == OnSend(old(Snapshot()), Settings(), hash, option, payload) && Settings() == old(Settings())
    {
      if step != Receiving {
        return Ignored("");
      }
      if offset != Some(ReadU32(option, 0)) {
        r := AskAgain();
        return;
      }
      if stream.None? {
        return Failed(Ascii(WRITE_FAILED), "Unknown error");
      }
      r := Write(payload);
    }

    method AskAgain() returns (r: Reply<ReceiverKind>)
      modifies this
      ensures (Snapshot(), r) == Misplaced(old(Snapshot()), Settings()) && Settings() == old(Settings())
    {
      if remainTry > 0 {
        var packet := GetRequirePacket();
        if packet.Err? {
          return Raised(packet.error);
        }
        remainTry := remainTry - 1;
        return Reply(Some(packet.value), true, Unfinished);
      }
      r := Failed(Ascii(WRONG_OFFSET), "Wrong offset (tried 3 times)");
    }

    method Write(payload: bytes) returns (r: Reply<ReceiverKind>)
      requires stream.Some? && offset.Some?
      modifies this
      ensures (Snapshot(), r) == Append(old(Snapshot()), Settings(), hash, payload) && Settings() == old(Settings())
    {
      var copy := stream.value + payload;
      stream := Some(copy);
      offset := Some(offset.value + |payload|);
      if offset == filesize {
        stream := None;
        if Some(hash(copy)) != expectedDigest {
          return Failed(Ascii(INTEGRITY_COMPROMISED), INTEGRITY_COMPROMISED);
        }
        return Reply(Some(Packet(Success, [], [])), false,
                     Finished(true, "", [], map["filename" := NameOf(filename), "recv_filename" := NameOf(recvFilename)]));
      } else if filesize.None? {
        return Raised("TypeError");
      } else if offset.value > filesize.value {
        return Failed(Ascii(RECEIVED_TOO_MUCH), RECEIVED_TOO_MUCH);
      }
      remainTry := MAX_TRY;
      var packet := GetRequirePacket();
      if packet.Err? {
        return Raised(packet.error);
      }
      r := Reply(Some(packet.value), true, Unfinished);
    }
  }
}

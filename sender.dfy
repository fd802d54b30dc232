/**
 * The sending end of a transfer (`SFTSenderScheme`): it offers a file or
 * serves a receiver's request, announces the file with INFO and answers
 * each REQUIRE with the chunk at the offset asked for.
 */
module Sender {
  import opened Bytes
  import opened Wrappers
  import Utf8
  import opened Scheme
  import opened Transfer

  datatype Step = Idle | Requesting | Waiting | Sending

  /** An open `FileReader`: the path it was opened with and what the file held then. */
  datatype OpenFile = OpenFile(name: string, contents: bytes)

  datatype Config = Config(detoken: Detokenizer, bufferSize: nat, forwarder: Option<string>)

  /** The session state; `info` is the dictionary reported on success. */
  datatype State = State(step: Step, file: Option<OpenFile>, info: map<string, string>)

  /** The files that exist, by path. */
  type FileSystem = map<string, bytes>

  const INITIAL: State := State(Idle, None, map[])

  const INVALID_TOKEN: string := "Invalid token"
  const EXPIRED_TOKEN: string := "Expired token"

  function DefaultConfig(forwarder: Option<string>): Config
  {
    Config(x => Value(x), DEFAULT_BUFFER_SIZE, forwarder)
  }

  /** `config`: an option given as zero or empty is skipped; a negative buffer size is rejected. */
  function Configure(c: Config, bufferSize: Option<int>, detoken: Option<Detokenizer>, forwarder: Option<string>)
    : (Config, Option<string>)
  {
    if bufferSize.Some? && bufferSize.value < 0 then (c, Some("Buffer size must be a positive integer."))
    else
      var c1 := if bufferSize.Some? && bufferSize.value > 0 then c.(bufferSize := bufferSize.value) else c;
      var c2 := if detoken.Some? then c1.(detoken := detoken.value) else c1;
      var c3 := if forwarder.Some? && forwarder.value != [] then c2.(forwarder := forwarder) else c2;
      (c3, None)
  }

  /** `cancel`. */
  function Cancelled(s: State): State
  {
    INITIAL
  }

  /** `FileReader(path)`: opening a path that is not a file raises. */
  function Open(path: string, fs: FileSystem): Result<OpenFile, string>
  {
    if path in fs then Ok(OpenFile(path, fs[path])) else Err("File not found")
  }

  /** `activation`: offer the file at `path`, only from the idle step. */
  function Activate(s: State, path: string, token: string, fs: FileSystem): (State, Activation<SenderKind>)
  {
    if s.step != Idle then (s, Inactive)
    else
      match Open(path, fs)
      case Err(e) => (s, ActivationFailed(e))
      case Ok(f) => (s.(step := Requesting, file := Some(f)), Activated(Packet(SenderRequest, [], Text(token))))
  }

  /** `resp_ignore`. */
  function OnIgnore(payload: bytes): Reply<SenderKind>
  {
    Reply(None, false, Finished(false, "Ignore", payload, map[]))
  }

  /**
   * `__create_info_packet`: record the file's name, then announce its name,
   * digest and size. Err holds the exception raised; the name stays recorded.
   */
  function CreateInfo(s: State, hash: Hash): (State, Result<Packet<SenderKind>, string>)
  {
    match s.file
    case None => (s, Err("AttributeError"))
    case Some(f) =>
      var s1 := s.(info := s.info["filename" := f.name]);
      match InfoPayload(f.name, hash(f.contents), |f.contents|)
      case None => (s1, Err("OverflowError"))
      case Some(p) => (s1, Ok(Packet(Info, [], p)))
  }

  function Refusal(text: string): Reply<SenderKind>
  {
    Reply(Some(Packet(SenderDeny, [], Ascii(text))), false, Finished(false, text, [], map[]))
  }

  /**
   * `resp_request`: a receiver asks for a file; the token check turns its
   * token into the path to send.
   */
  function OnRequest(s: State, c: Config, hash: Hash, payload: bytes, fs: FileSystem): (State, Reply<SenderKind>)
  {
    if s.step != Idle then (s, Ignored("Invalid step"))
    else
      match Utf8.Decode(payload)
      case None => (s, Refusal(INVALID_TOKEN))
      case Some(token) =>
        match c.detoken(token)
        case Expired => (s, Refusal(EXPIRED_TOKEN))
        case Invalid => (s, Refusal(INVALID_TOKEN))
        case Value(path) =>
          var s1 := s.(info := s.info["filename" := path]);
          match Open(path, fs)
          case Err(e) => (s1, Raised(e))
          case Ok(f) => Announce(s1.(file := Some(f)), hash)
  }

  /** Send INFO and wait for the first REQUIRE. */
  function Announce(s: State, hash: Hash): (State, Reply<SenderKind>)
  {
    var (s1, info) := CreateInfo(s, hash);
    match info
    case Err(e) => (s1, Raised(e))
    case Ok(p) => (s1.(step := Waiting), Reply(Some(p), true, Unfinished))
  }

  /** `resp_accept`: the receiver accepted the offer. */
  function OnAccept(s: State, hash: Hash): (State, Reply<SenderKind>)
  {
    if s.step != Requesting then (s, Ignored("Invalid step")) else Announce(s, hash)
  }

  /** `resp_deny`: the receiver refused the offer. */
  function OnDeny(s: State, payload: bytes): Reply<SenderKind>
  {
    if s.step == Requesting then Reply(None, false, Finished(false, "Deny", payload, map[]))
    else Ignored("Invalid step")
  }

  /** What `FileReader.read(offset, n)` gives: up to `n` bytes from `offset`, fewer at the end of the file. */
  function Read(contents: bytes, offset: nat, n: nat): bytes
  {
    Slice(contents, offset, offset + n)
  }

  /**
   * `resp_require`: send the chunk at the offset asked for, no longer than
   * either end's buffer size, with the offset as the SEND option.
   */
  function OnRequire(s: State, c: Config, payload: bytes): (State, Reply<SenderKind>)
  {
    if s.step != Sending && s.step != Waiting then (s, Ignored("Invalid payload"))
    else
      var (offset, bufferSize) := ReadRequire(payload);
      match s.file
      case None => (s, Raised("AttributeError"))
      case Some(f) =>
        var data := Read(f.contents, offset, Min(bufferSize, c.bufferSize));
        ReadBound(payload, 0);
        (s.(step := Sending), Reply(Some(Packet(Send, Be32(offset), data)), true, Unfinished))
  }

  /** `resp_success`. */
  function OnSuccess(s: State): Reply<SenderKind>
  {
    if s.step == Sending || s.step == Waiting then Reply(None, false, Finished(true, "", [], s.info))
    else Ignored("Invalid step")
  }

  /** `resp_failure`: the receiver's reason arrives as the message. */
  function OnFailure(s: State, payload: bytes): Reply<SenderKind>
  {
    if s.step == Sending || s.step == Waiting then Reply(None, false, Finished(false, "Failure", payload, map[]))
    else Ignored("Invalid step")
  }

  /* ---------------- the scheme object ---------------- */

  class SenderScheme {
    var step: Step
    var file: Option<OpenFile>
    var info: map<string, string>
    var detoken: Detokenizer
    var bufferSize: nat
    var forwarder: Option<string>
    /** The hash `FileReader.digest` applies to the file. */
    const hash: Hash

    function Snapshot(): State
      reads this
    {
      State(step, file, info)
    }

    function Settings(): Config
      reads this
    {
      Config(detoken, bufferSize, forwarder)
    }

    constructor (forwarder: Option<string>, hash: Hash)
      ensures Snapshot() == INITIAL && Settings() == DefaultConfig(forwarder) && this.hash == hash
    {
      this.forwarder := forwarder;
      detoken := x => Value(x);
      bufferSize := DEFAULT_BUFFER_SIZE;
      step := Idle;
      file := None;
      info := map[];
      this.hash := hash;
    }

    method SetConfig(bufferSize: Option<int>, detoken: Option<Detokenizer>, forwarder: Option<string>)
      returns (error: Option<string>)
      modifies this
      ensures (Settings(), error) == Configure(old(Settings()), bufferSize, detoken, forwarder)
      ensures Snapshot() == old(Snapshot())
    {
      if bufferSize.Some? && bufferSize.value != 0 {
        if bufferSize.value <= 0 {
          return Some("Buffer size must be a positive integer.");
        }
        this.bufferSize := bufferSize.value;
      }
      if detoken.Some? {
        this.detoken := detoken.value;
      }
      if forwarder.Some? && forwarder.value != [] {
        this.forwarder := forwarder;
      }
      error := None;
    }

    method Cancel()
      modifies this
      ensures Snapshot() == Cancelled(old(Snapshot())) && Settings() == old(Settings())
    {
      step := Idle;
      file := None;
      info := map[];
    }

    method Activation(path: string, token: string, fs: FileSystem) returns (r: Activation<SenderKind>)
      modifies this
      ensures (Snapshot(), r) == Activate(old(Snapshot()), path, token, fs) && Settings() == old(Settings())
    {
      if step != Idle {
        return Inactive;
      }
      if path !in fs {
        return ActivationFailed("File not found");
      }
      r := Activated(Packet(SenderRequest, [], Text(token)));
      step := Requesting;
      file := Some(OpenFile(path, fs[path]));
    }

    method CreateInfoPacket() returns (r: Result<Packet<SenderKind>, string>)
      modifies this
      ensures (Snapshot(), r) == CreateInfo(old(Snapshot()), hash) && Settings() == old(Settings())
    {
      if file.None? {
        return Err("AttributeError");
      }
      info := info["filename" := file.value.name];
      var payload := InfoPayload(file.value.name, hash(file.value.contents), |file.value.contents|);
      if payload.None? {
        return Err("OverflowError");
      }
      r := Ok(Packet(Info, [], payload.value));
    }

    method RespRequest(payload: bytes, fs: FileSystem) returns (r: Reply<SenderKind>)
      modifies this
      ensures (Snapshot(), r) == OnRequest(old(Snapshot()), Settings(), hash, payload, fs) && Settings() == old(Settings())
    {
      if step != Idle {
        return Ignored("Invalid step");
      }
      var token := Utf8.Decode(payload);
      if token.None? {
        return Refusal(INVALID_TOKEN);
      }
      var checked := detoken(token.value);
      if checked.Expired? {
        return Refusal(EXPIRED_TOKEN);
      } else if checked.Invalid? {
        return Refusal(INVALID_TOKEN);
      }
      info := info["filename" := checked.value];
      if checked.value !in fs {
        return Raised("File not found");
      }
      file := Some(OpenFile(checked.value, fs[checked.value]));
      r := AnnounceFile();
    }

    method AnnounceFile() returns (r: Reply<SenderKind>)
      modifies this
      ensures (Snapshot(), r) == Announce(old(Snapshot()), hash) && Settings() == old(Settings())
    {
      var packet := CreateInfoPacket();
      if packet.Err? {
        return Raised(packet.error);
      }
      step := Waiting;
      r := Reply(Some(packet.value), true, Unfinished);
    }

    method RespAccept() returns (r: Reply<SenderKind>)
      modifies this
      ensures (Snapshot(), r) == OnAccept(old(Snapshot()), hash) && Settings() == old(Settings())
    {
      if step != Requesting {
        return Ignored("Invalid step");
      }
      r := AnnounceFile();
    }

    method RespDeny(payload: bytes) returns (r: Reply<SenderKind>)
      ensures r == OnDeny(Snapshot(), payload)
    {
      if step == Requesting {
        r := Reply(None, false, Finished(false, "Deny", payload, map[]));
      } else {
        r := Ignored("Invalid step");
      }
    }

    method RespRequire(payload: bytes) returns (r: Reply<SenderKind>)
      modifies this
      ensures (Snapshot(), r) == OnRequire(old(Snapshot()), Settings(), payload) && Settings() == old(Settings())
    {
      if step != Sending && step != Waiting {
        return Ignored("Invalid payload");
      }
      var offset := ReadU32(payload, 0);
      var peerBufferSize := ReadU32(payload, INT_SIZE);
      var n := Min(peerBufferSize, bufferSize);
      if file.None? {
        return Raised("AttributeError");
      }
      var data := Read(file.value.contents, offset, n);
      ReadBound(payload, 0);
      r := Reply(Some(Packet(Send, Be32(offset), data)), true, Unfinished);
      step := Sending;
    }

    method RespSuccess() returns (r: Reply<SenderKind>)
      ensures r == OnSuccess(Snapshot())
    {
      if step == Sending || step == Waiting {
        r := Reply(None, false, Finished(true, "", [], info));
      } else {
        r := Ignored("Invalid step");
      }
    }

    method RespFailure(payload: bytes) returns (r: Reply<SenderKind>)
      ensures r == OnFailure(Snapshot(), payload)
    {
      if step == Sending || step == Waiting {
        r := Reply(None, false, Finished(false, "Failure", payload, map[]));
      } else {
        r := Ignored("Invalid step");
      }
    }
  }
}

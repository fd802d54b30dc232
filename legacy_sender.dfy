/**
 * The earlier sending scheme. It only offers files (it answers no
 * REQUEST), sends a fixed token, reads the file's digest and size when the
 * offer is accepted, and enters the sending step before it builds INFO.
 */
module LegacySender {
  import opened Bytes
  import opened Wrappers
  import opened Scheme
  import opened Transfer

  datatype Step = Idle | Requesting | Sending

  datatype Config = Config(token: string, bufferSize: nat, forwarder: string)

  /** The session state; `stream` is what the open file held when it was opened, None while no file is open. */
  datatype State = State(step: Step, filename: Option<string>, stream: Option<bytes>)

  /** The files that exist, by path. */
  type FileSystem = map<string, bytes>

  const INITIAL: State := State(Idle, None, None)

  function DefaultConfig(forwarder: string): Config
  {
    Config(DEFAULT_TOKEN, DEFAULT_BUFFER_SIZE, forwarder)
  }

  /** `config`: an option given as zero or empty is skipped; a negative buffer size is rejected. */
  function Configure(c: Config, token: Option<string>, bufferSize: Option<int>): (Config, Option<string>)
  {
    if bufferSize.Some? && bufferSize.value < 0 then (c, Some("Buffer size must be a positive integer."))
    else
      var c1 := if bufferSize.Some? && bufferSize.value > 0 then c.(bufferSize := bufferSize.value) else c;
      var c2 := if token.Some? && token.value != [] then c1.(token := token.value) else c1;
      (c2, None)
  }

  /** `cancel`. */
  function Cancelled(s: State): State
  {
    INITIAL
  }

  /** `activation`: offer the file at `path` with the configured token, only from the idle step. */
  function Activate(s: State, c: Config, path: string, fs: FileSystem): (State, Activation<SenderKind>)
  {
    if s.step != Idle then (s, Inactive)
    else if path !in fs then (s, ActivationFailed("File not found"))
    else (s.(step := Requesting, filename := Some(path)), Activated(Packet(SenderRequest, [], Text(c.token))))
  }

  /** `resp_ignore`. */
  function OnIgnore(): Reply<SenderKind>
  {
    Reply(None, false, Finished(false, "Ignored.", [], map[]))
  }

  /**
   * `resp_accept`: the step becomes sending first; then the file is read
   * from `fs` for its digest and size and opened, and INFO announces its
   * name, digest and size. Each of these can raise, leaving what was done.
   */
  function OnAccept(s: State, hash: Hash, fs: FileSystem): (State, Reply<SenderKind>)
  {
    if s.step != Requesting then (s, Ignored(""))
    else
      var s1 := s.(step := Sending);
      if s.filename.None? then (s1, Raised("TypeError"))
      else if s.filename.value !in fs then (s1, Raised("FileNotFoundError"))
      else
        var contents := fs[s.filename.value];
        var s2 := s1.(stream := Some(contents));
        match InfoPayload(s.filename.value, hash(contents), |contents|)
        case None => (s2, Raised("OverflowError"))
        case Some(p) => (s2, Reply(Some(Packet(Info, [], p)), true, Unfinished))
  }

  /** `resp_deny`. */
  function OnDeny(s: State): Reply<SenderKind>
  {
    if s.step == Requesting then Reply(None, false, Finished(false, "Denied.", [], map[])) else Ignored("")
  }

  /**
   * `resp_require`: the chunk at the offset asked for, no longer than
   * either end's buffer size, with the offset as the SEND option.
   */
  function OnRequire(s: State, c: Config, payload: bytes): Reply<SenderKind>
  {
    if s.step != Sending then Ignored("")
    else
      var (offset, bufferSize) := ReadRequire(payload);
      match s.stream
      case None => Raised("AttributeError")
      case Some(contents) =>
        ReadBound(payload, 0);
        Reply(Some(Packet(Send, Be32(offset), Slice(contents, offset, offset + Min(bufferSize, c.bufferSize)))), true, Unfinished)
  }

  /** `resp_success`: done, with nothing to report. */
  function OnSuccess(s: State): Reply<SenderKind>
  {
    if s.step == Sending then Reply(None, false, Finished(true, "", [], map[])) else Ignored("")
  }

  /** `resp_failure`: the receiver's payload is handed on as the outcome's message. */
  function OnFailure(s: State, payload: bytes): Reply<SenderKind>
  {
    if s.step == Sending then Reply(None, false, Finished(false, "", payload, map[])) else Ignored("")
  }

  /* ---------------- the scheme object ---------------- */

  class LegacySenderScheme {
    var step: Step
    var filename: Option<string>
    var stream: Option<bytes>
    var token: string
    var bufferSize: nat
    const forwarder: string
    /** The hash `get_file_digest` applies to the file. */
    const hash: Hash

    function Snapshot(): State
      reads this
    {
      State(step, filename, stream)
    }

    function Settings(): Config
      reads this
    {
      Config(token, bufferSize, forwarder)
    }

    constructor (forwarder: string, hash: Hash)
      ensures Snapshot() == INITIAL && Settings() == DefaultConfig(forwarder) && this.hash == hash
    {
      this.forwarder := forwarder;
      bufferSize := DEFAULT_BUFFER_SIZE;
      token := DEFAULT_TOKEN;
      step := Idle;
      filename := None;
      stream := None;
      this.hash := hash;
    }

    method SetConfig(token: Option<string>, bufferSize: Option<int>) returns (error: Option<string>)
      modifies this
      ensures (Settings(), error) == Configure(old(Settings()), token, bufferSize)
      ensures Snapshot() == old(Snapshot())
    {
      if bufferSize.Some? && bufferSize.value != 0 {
        if bufferSize.value <= 0 {
          return Some("Buffer size must be a positive integer.");
        }
        this.bufferSize := bufferSize.value;
      }
      if token.Some? && token.value != [] {
        this.token := token.value;
      }
      error := None;
    }

    method Cancel()
      modifies this
      ensures Snapshot() == Cancelled(old(Snapshot())) && Settings() == old(Settings())
    {
      step := Idle;
      stream := None;
      filename := None;
    }

    method Activation(path: string, fs: FileSystem) returns (r: Activation<SenderKind>)
      modifies this
      ensures (Snapshot(), r) == Activate(old(Snapshot()), Settings(), path, fs) && Settings() == old(Settings())
    {
      if step != Idle {
        return Inactive;
      }
      if path !in fs {
        return ActivationFailed("File not found");
      }
      r := Activated(Packet(SenderRequest, [], Text(token)));
      step := Requesting;
      filename := Some(path);
    }

    method RespAccept(fs: FileSystem) returns (r: Reply<SenderKind>)
      modifies this
      ensures (Snapshot(), r) == OnAccept(old(Snapshot()), hash, fs) && Settings() == old(Settings())
    {
      if step != Requesting {
        return Ignored("");
      }
      step := Sending;
      if filename.None? {
        return Raised("TypeError");
      }
      if filename.value !in fs {
        return Raised("FileNotFoundError");
      }
      var digest := hash(fs[filename.value]);
      var filesize := |fs[filename.value]|;
      stream := Some(fs[filename.value]);
      var payload := InfoPayload(filename.value, digest, filesize);
      if payload.None? {
        return Raised("OverflowError");
      }
      r := Reply(Some(Packet(Info, [], payload.value)), true, Unfinished);
    }

    method RespDeny() returns (r: Reply<SenderKind>)
      ensures r == OnDeny(Snapshot())
    {
      if step == Requesting {
        r := Reply(None, false, Finished(false, "Denied.", [], map[]));
      } else {
        r := Ignored("");
      }
    }

    method RespRequire(payload: bytes) returns (r: Reply<SenderKind>)
      ensures r == OnRequire(Snapshot(), Settings(), payload)
    {
      if step != Sending {
        return Ignored("");
      }
      var offset := ReadU32(payload, 0);
      var peerBufferSize := ReadU32(payload, INT_SIZE);
      var n := Min(peerBufferSize, bufferSize);
      if stream.None? {
        return Raised("AttributeError");
      }
      var data := Slice(stream.value, offset, offset + n);
      ReadBound(payload, 0);
      r := Reply(Some(Packet(Send, Be32(offset), data)), true, Unfinished);
    }

    method RespSuccess() returns (r: Reply<SenderKind>)
      ensures r == OnSuccess(Snapshot())
    {
      if step == Sending {
        r := Reply(None, false, Finished(true, "", [], map[]));
      } else {
        r := Ignored("");
      }
    }

    method RespFailure(payload: bytes) returns (r: Reply<SenderKind>)
      ensures r == OnFailure(Snapshot(), payload)
    {
      if step == Sending {
        r := Reply(None, false, Finished(false, "", payload, map[]));
      } else {
        r := Ignored("");
      }
    }
  }
}

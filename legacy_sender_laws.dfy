/** What the earlier sender's handlers guarantee, stated on the handler functions. */
module LegacySenderLaws {
  import opened Bytes
  import opened Wrappers
  import Utf8
  import opened Scheme
  import opened Transfer
  import opened LegacySender

  /** Outside the idle step a file name is recorded, and a file is open only while sending. */
  predicate Valid(s: State)
  {
    (s.step != Idle ==> s.filename.Some?) && (s.stream.Some? ==> s.step == Sending)
  }

  /** Every handler keeps the state valid, from the initial state on. */
  lemma ValidKept(s: State, c: Config, hash: Hash, path: string, fs: FileSystem)
    requires Valid(s)
    ensures Valid(INITIAL) && Valid(Cancelled(s))
    ensures Valid(Activate(s, c, path, fs).0) && Valid(OnAccept(s, hash, fs).0)
  {}

  /** `activation` offers a file that exists, only from the idle step, with the configured token as UTF-8. */
  lemma ActivationLaw(s: State, c: Config, path: string, fs: FileSystem)
    ensures var (s', a) := Activate(s, c, path, fs);
      (a.Activated? <==> s.step == Idle && path in fs) &&
      (a.Activated? ==> s' == s.(step := Requesting, filename := Some(path)) &&
                        a.packet.kind == SenderRequest && Utf8.Decode(a.packet.payload) == Some(c.token)) &&
      (!a.Activated? ==> s' == s)
  {
    Utf8.DecodeEncode(c.token);
  }

  /**
   * An accepted offer always leaves the sender in the sending step, even
   * when the file has gone or INFO cannot be built; otherwise the file is
   * open and INFO carries its name, digest and size.
   */
  lemma AcceptLaw(s: State, hash: Hash, fs: FileSystem)
    requires Valid(s) && s.step == Requesting
    ensures var name := s.filename.value;
      var (s', r) := OnAccept(s, hash, fs);
      s'.step == Sending && s'.filename == s.filename &&
      (name !in fs ==> s'.stream.None? && r == Raised("FileNotFoundError")) &&
      (name in fs ==> s'.stream == Some(fs[name]) &&
                      var info := InfoPayload(name, hash(fs[name]), |fs[name]|);
                      (info.None? ==> r == Raised("OverflowError")) &&
                      (info.Some? ==> r == Reply(Some(Packet(Info, [], info.value)), true, Unfinished)))
  {}

  /** For an ASCII name, the receiver reads INFO back as the name, the file's digest and its size. */
  lemma AcceptAnnounces(s: State, hash: Hash, fs: FileSystem)
    requires Valid(s) && s.step == Requesting && s.filename.value in fs && Utf8.IsAscii(s.filename.value)
    requires InfoPayload(s.filename.value, hash(fs[s.filename.value]), |fs[s.filename.value]|).Some?
    ensures var name := s.filename.value;
      var r := OnAccept(s, hash, fs).1;
      r.Reply? && r.packet.Some? &&
      ReadInfo(r.packet.value.payload).0 == InfoFields(Text(name), hash(fs[name]), |fs[name]|) &&
      Utf8.Decode(Text(name)) == Some(name)
  {
    var name := s.filename.value;
    InfoRoundTrip(name, hash(fs[name]), |fs[name]|);
  }

  /**
   * REQUIRE, once the file is open, is answered with the chunk at the offset
   * asked for, no longer than either end's buffer size and cut short only by
   * the end of the file; with no file open it raises.
   */
  lemma RequireServesChunk(s: State, c: Config, offset: nat, bufferSize: nat)
    requires s.step == Sending && RequirePayload(offset, bufferSize).Some?
    ensures var r := OnRequire(s, c, RequirePayload(offset, bufferSize).value);
      var n := Min(bufferSize, c.bufferSize);
      (s.stream.None? ==> r == Raised("AttributeError")) &&
      (s.stream.Some? ==>
         var contents := s.stream.value;
         r.Reply? && r.cont && r.done == Unfinished && r.packet.Some? &&
         r.packet.value.kind == Send && ReadU32(r.packet.value.option, 0) == offset &&
         |r.packet.value.payload| <= n &&
         (offset + n <= |contents| ==> r.packet.value.payload == contents[offset..offset + n]) &&
         (offset <= |contents| < offset + n ==> r.packet.value.payload == contents[offset..]))
  {
    RequireRoundTrip(offset, bufferSize);
    OffsetRoundTrip(offset);
  }

  /** A denial ends an offer with "Denied."; SUCCESS reports nothing; FAILURE hands on the receiver's payload. */
  lemma OutcomeLaw(s: State, payload: bytes)
    ensures OnDeny(s) == (if s.step == Requesting then Reply(None, false, Finished(false, "Denied.", [], map[])) else Ignored(""))
    ensures s.step == Sending ==> OnSuccess(s) == Reply(None, false, Finished(true, "", [], map[])) &&
                                  OnFailure(s, payload) == Reply(None, false, Finished(false, "", payload, map[]))
    ensures s.step != Sending ==> OnSuccess(s).Ignored? && OnFailure(s, payload).Ignored? && OnRequire(s, Config("", 0, ""), payload).Ignored?
  {}

  /** `config` rejects only a negative buffer size; a non-empty token replaces the configured one. */
  lemma ConfigureLaw(c: Config, token: Option<string>, bufferSize: Option<int>)
    ensures var (c', error) := Configure(c, token, bufferSize);
      (error.Some? <==> bufferSize.Some? && bufferSize.value < 0) &&
      (error.Some? ==> c' == c) &&
      (error.None? ==> c'.bufferSize == (if bufferSize.Some? && bufferSize.value > 0 then bufferSize.value else c.bufferSize) &&
                       c'.token == (if token.Some? && token.value != [] then token.value else c.token) &&
                       c'.forwarder == c.forwarder)
  {}
}

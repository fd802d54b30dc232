/** What the sender's handlers guarantee, stated on the handler functions. */
module SenderLaws {
  import opened Bytes
  import opened Wrappers
  import Utf8
  import opened Scheme
  import opened Transfer
  import opened Sender

  /** Outside the idle step a file is open. */
  predicate Valid(s: State)
  {
    s.step != Idle ==> s.file.Some?
  }

  /** Every handler keeps the state valid, from the initial state on. */
  lemma ValidKept(s: State, c: Config, hash: Hash, path: string, token: string, payload: bytes, fs: FileSystem)
    requires Valid(s)
    ensures Valid(INITIAL) && Valid(Cancelled(s))
    ensures Valid(Activate(s, path, token, fs).0) && Valid(OnRequest(s, c, hash, payload, fs).0)
    ensures Valid(OnAccept(s, hash).0) && Valid(OnRequire(s, c, payload).0)
  {}

  /** `activation` offers a file that exists, and only from the idle step; the token travels as UTF-8. */
  lemma ActivationLaw(s: State, path: string, token: string, fs: FileSystem)
    ensures var (s', a) := Activate(s, path, token, fs);
      (a.Activated? <==> s.step == Idle && path in fs) &&
      (a.Activated? ==> s' == s.(step := Requesting, file := Some(OpenFile(path, fs[path]))) &&
                        a.packet.kind == SenderRequest && Utf8.Decode(a.packet.payload) == Some(token)) &&
      (!a.Activated? ==> s' == s)
  {
    Utf8.DecodeEncode(token);
  }

  /**
   * Announcing the open file records its name and sends INFO with its name,
   * its digest and its size, or raises when one of them does not fit in
   * 32 bits, keeping the recorded name.
   */
  lemma AnnounceLaw(s: State, hash: Hash)
    requires s.file.Some?
    ensures var f := s.file.value;
      var (s', r) := Announce(s, hash);
      var info := InfoPayload(f.name, hash(f.contents), |f.contents|);
      (info.Some? ==> s' == s.(step := Waiting, info := s.info["filename" := f.name]) &&
                      r == Reply(Some(Packet(Info, [], info.value)), true, Unfinished)) &&
      (info.None? ==> s' == s.(info := s.info["filename" := f.name]) && r == Raised("OverflowError"))
  {}

  /** ACCEPT is answered with INFO only after this sender has offered a file. */
  lemma AcceptLaw(s: State, hash: Hash)
    requires Valid(s)
    ensures OnAccept(s, hash).1.Ignored? <==> s.step != Requesting
    ensures s.step == Requesting ==> OnAccept(s, hash) == Announce(s, hash)
  {}

  /**
   * A receiver's REQUEST: the token check names the file to send. A file
   * that exists is opened and announced; a missing one raises, and the name
   * recorded before the failure stays recorded while the step stays idle.
   */
  lemma RequestServesFile(s: State, c: Config, hash: Hash, token: string, fs: FileSystem)
    requires s.step == Idle && c.detoken(token).Value?
    ensures var path := c.detoken(token).value;
      var (s', r) := OnRequest(s, c, hash, Text(token), fs);
      (path in fs ==> (s', r) == Announce(s.(info := s.info["filename" := path], file := Some(OpenFile(path, fs[path]))), hash)) &&
      (path !in fs ==> s' == s.(info := s.info["filename" := path]) && r == Raised("File not found"))
  {
    Utf8.DecodeEncode(token);
  }

  /** A token that is not UTF-8 or that the token check refuses is denied, the state untouched. */
  lemma RequestDenied(s: State, c: Config, hash: Hash, payload: bytes, fs: FileSystem)
    requires s.step == Idle
    requires Utf8.Decode(payload).None? || !c.detoken(Utf8.Decode(payload).value).Value?
    ensures var (s', r) := OnRequest(s, c, hash, payload, fs);
      s' == s && r.Reply? && !r.cont && r.packet.Some? && r.packet.value.kind == SenderDeny &&
      r.done.Finished? && !r.done.ok &&
      r.done.reason == (if Utf8.Decode(payload).Some? && c.detoken(Utf8.Decode(payload).value).Expired? then EXPIRED_TOKEN
                        else INVALID_TOKEN)
  {}

  /**
   * REQUIRE is answered with the chunk at the offset asked for, no longer
   * than either end's buffer size and cut short only by the end of the file,
   * and with an option from which the receiver reads that offset back.
   */
  lemma RequireServesChunk(s: State, c: Config, offset: nat, bufferSize: nat)
    requires Valid(s) && (s.step == Waiting || s.step == Sending)
    requires RequirePayload(offset, bufferSize).Some?
    ensures var contents := s.file.value.contents;
      var n := Min(bufferSize, c.bufferSize);
      var (s', r) := OnRequire(s, c, RequirePayload(offset, bufferSize).value);
      s' == s.(step := Sending) && r.Reply? && r.cont && r.done == Unfinished && r.packet.Some? &&
      r.packet.value.kind == Send && ReadU32(r.packet.value.option, 0) == offset &&
      |r.packet.value.payload| <= n &&
      (offset + n <= |contents| ==> r.packet.value.payload == contents[offset..offset + n]) &&
      (offset <= |contents| < offset + n ==> r.packet.value.payload == contents[offset..])
  {
    RequireRoundTrip(offset, bufferSize);
    OffsetRoundTrip(offset);
  }

  /** SUCCESS reports what the sender recorded; FAILURE hands on the receiver's message. */
  lemma OutcomeLaw(s: State, payload: bytes)
    requires s.step == Waiting || s.step == Sending
    ensures OnSuccess(s) == Reply(None, false, Finished(true, "", [], s.info))
    ensures OnFailure(s, payload) == Reply(None, false, Finished(false, "Failure", payload, map[]))
    ensures OnDeny(s, payload).Ignored?
  {}

  /** `config` rejects only a negative buffer size, and every option it accepts replaces its setting. */
  lemma ConfigureLaw(c: Config, bufferSize: Option<int>, detoken: Option<Detokenizer>, forwarder: Option<string>)
    ensures var (c', error) := Configure(c, bufferSize, detoken, forwarder);
      (error.Some? <==> bufferSize.Some? && bufferSize.value < 0) &&
      (error.Some? ==> c' == c) &&
      (error.None? ==> c'.bufferSize == (if bufferSize.Some? && bufferSize.value > 0 then bufferSize.value else c.bufferSize) &&
                       c'.detoken == (if detoken.Some? then detoken.value else c.detoken))
  {}
}

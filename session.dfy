/**
 * A receiver and a sender talking to each other: the handshake that starts
 * a transfer and the REQUIRE/SEND rounds that deliver the file.
 */
module Session {
  import opened Bytes
  import opened Wrappers
  import Utf8
  import opened Scheme
  import opened Transfer
  import R = Receiver
  import S = Sender
  import RL = ReceiverLaws
  import SL = SenderLaws

  /** One round: the sender answers a REQUIRE payload, and the receiver takes the chunk. */
  function Round(rs: R.State, rc: R.Config, ss: S.State, sc: S.Config, hash: Hash, require: bytes)
    : (R.State, S.State, Reply<ReceiverKind>)
  {
    var (ss1, sent) := S.OnRequire(ss, sc, require);
    if sent.Reply? && sent.packet.Some? then
      var (rs1, reply) := R.OnSend(rs, rc, hash, sent.packet.value.option, sent.packet.value.payload);
      (rs1, ss1, reply)
    else (rs, ss1, Ignored("No chunk"))
  }

  /** Up to `n` rounds, each started by the REQUIRE the previous one ended with. */
  function Run(rs: R.State, rc: R.Config, ss: S.State, sc: S.Config, hash: Hash, require: bytes, n: nat)
    : (R.State, S.State, Reply<ReceiverKind>)
    decreases n
  {
    var (rs1, ss1, reply) := Round(rs, rc, ss, sc, hash, require);
    if n <= 1 || !(reply.Reply? && reply.cont && reply.packet.Some?) then (rs1, ss1, reply)
    else Run(rs1, rc, ss1, sc, hash, reply.packet.value.payload, n - 1)
  }

  /** The REQUIRE payload asking for the chunk at `k` (empty where `k` or the buffer size does not fit in 32 bits). */
  function RequireAt(rc: R.Config, k: nat): bytes
  {
    if RequirePayload(k, rc.bufferSize).Some? then RequirePayload(k, rc.bufferSize).value else []
  }

  /** The chunk size both ends agree on. */
  function ChunkSize(rc: R.Config, sc: S.Config): nat
  {
    Min(rc.bufferSize, sc.bufferSize)
  }

  /** The rounds a copy `remaining` bytes short of complete needs. */
  function RoundsNeeded(remaining: nat, n: nat): nat
    requires n > 0
  {
    if remaining <= n then 1 else 1 + RoundsNeeded(remaining - n, n)
  }

  /** The receiver in the middle of copying `contents`, holding its first `k` bytes. */
  predicate Holding(rs: R.State, rc: R.Config, hash: Hash, contents: bytes, k: nat)
  {
    RL.Valid(rs) && rs.step == R.Receiving && k <= |contents| && rs.file == Some(contents[..k]) &&
    rs.expectedSize == Some(|contents|) && rs.expectedDigest == Some(hash(contents)) &&
    |contents| < TWO_32 && 0 < rc.bufferSize < TWO_32
  }

  /** The sender serving `contents`. */
  predicate Serving(ss: S.State, sc: S.Config, contents: bytes)
  {
    (ss.step == S.Waiting || ss.step == S.Sending) && ss.file.Some? && ss.file.value.contents == contents && sc.bufferSize > 0
  }

  /** Both ends in the middle of a transfer of `contents`, the receiver holding its first `k` bytes. */
  predicate Transferring(rs: R.State, rc: R.Config, ss: S.State, sc: S.Config, hash: Hash, contents: bytes, k: nat)
  {
    Holding(rs, rc, hash, contents, k) && Serving(ss, sc, contents)
  }

  /** A round that reaches the end of the file completes the copy, and the receiver reports SUCCESS. */
  lemma RoundCompletes(rs: R.State, rc: R.Config, ss: S.State, sc: S.Config, hash: Hash, contents: bytes, k: nat)
    requires Transferring(rs, rc, ss, sc, hash, contents, k) && k + ChunkSize(rc, sc) >= |contents|
    ensures Round(rs, rc, ss, sc, hash, RequireAt(rc, k)).0.file == Some(contents)
    ensures Round(rs, rc, ss, sc, hash, RequireAt(rc, k)).2 == Reply(Some(Packet(Success, [], [])), false, Finished(true, "", [], rs.info))
  {
    RoundIsReceipt(rs, rc, ss, sc, hash, contents, k);
    CopyCompletes(rs, rc, hash, contents, k, ChunkSize(rc, sc));
  }

  /** A round that stops short of the end moves the copy forward by a whole chunk, and the receiver asks for the rest. */
  lemma RoundContinues(rs: R.State, rc: R.Config, ss: S.State, sc: S.Config, hash: Hash, contents: bytes, k: nat)
    requires Transferring(rs, rc, ss, sc, hash, contents, k) && k + ChunkSize(rc, sc) < |contents|
    ensures Transferring(Round(rs, rc, ss, sc, hash, RequireAt(rc, k)).0, rc, Round(rs, rc, ss, sc, hash, RequireAt(rc, k)).1,
                         sc, hash, contents, k + ChunkSize(rc, sc))
    ensures Round(rs, rc, ss, sc, hash, RequireAt(rc, k)).0.info == rs.info
    ensures Round(rs, rc, ss, sc, hash, RequireAt(rc, k)).2
         == Reply(Some(Packet(Require, [], RequireAt(rc, k + ChunkSize(rc, sc)))), true, Unfinished)
  {
    RoundIsReceipt(rs, rc, ss, sc, hash, contents, k);
    CopyContinues(rs, rc, hash, contents, k, ChunkSize(rc, sc));
  }

  /** The last chunk completes the copy, whose digest is the announced one. */
  lemma CopyCompletes(rs: R.State, rc: R.Config, hash: Hash, contents: bytes, k: nat, n: nat)
    requires Holding(rs, rc, hash, contents, k) && k + n >= |contents|
    ensures R.OnSend(rs, rc, hash, Be32(k), Slice(contents, k, k + n))
         == (rs.(file := Some(contents)), Reply(Some(Packet(Success, [], [])), false, Finished(true, "", [], rs.info)))
  {
    OffsetRoundTrip(k);
    ChunkExtends(contents, k, n);
    assert contents[..|contents|] == contents;
    RL.CompletionChecksDigest(rs, rc, hash, Be32(k), Slice(contents, k, k + n));
  }

  /** A chunk short of the end extends the copy by `n` bytes and asks for the next. */
  lemma CopyContinues(rs: R.State, rc: R.Config, hash: Hash, contents: bytes, k: nat, n: nat)
    requires Holding(rs, rc, hash, contents, k) && k + n < |contents|
    ensures Holding(R.OnSend(rs, rc, hash, Be32(k), Slice(contents, k, k + n)).0, rc, hash, contents, k + n)
    ensures R.OnSend(rs, rc, hash, Be32(k), Slice(contents, k, k + n)).0.info == rs.info
    ensures R.OnSend(rs, rc, hash, Be32(k), Slice(contents, k, k + n)).1
         == Reply(Some(Packet(Require, [], RequireAt(rc, k + n))), true, Unfinished)
  {
    OffsetRoundTrip(k);
    ChunkExtends(contents, k, n);
    RL.ShortCopyContinues(rs, rc, hash, Be32(k), Slice(contents, k, k + n));
  }

  /** In a round the receiver takes the chunk at its offset, and the sender is left sending. */
  lemma RoundIsReceipt(rs: R.State, rc: R.Config, ss: S.State, sc: S.Config, hash: Hash, contents: bytes, k: nat)
    requires Transferring(rs, rc, ss, sc, hash, contents, k)
    ensures Round(rs, rc, ss, sc, hash, RequireAt(rc, k))
         == (R.OnSend(rs, rc, hash, Be32(k), Slice(contents, k, k + ChunkSize(rc, sc))).0, ss.(step := S.Sending),
             R.OnSend(rs, rc, hash, Be32(k), Slice(contents, k, k + ChunkSize(rc, sc))).1)
    ensures ReadU32(Be32(k), 0) == k
  {
    ChunkSent(ss, sc, k, rc.bufferSize);
    OffsetRoundTrip(k);
    RoundStep(rs, rc, ss, sc, hash, RequireAt(rc, k), ss.(step := S.Sending),
              Reply(Some(Packet(Send, Be32(k), Slice(contents, k, k + ChunkSize(rc, sc)))), true, Unfinished));
  }

  /** The chunk read at the end of a prefix extends it by up to `n` bytes. */
  lemma ChunkExtends(contents: bytes, k: nat, n: nat)
    requires k <= |contents|
    ensures contents[..k] + Slice(contents, k, k + n) == contents[..Min(k + n, |contents|)]
  {
    var k' := Min(k + n, |contents|);
    assert Slice(contents, k, k + n) == contents[k..k'];
    assert contents[..k] + contents[k..k'] == contents[..k'];
  }

  /** The sender's exact answer to a REQUIRE for offset `k`. */
  lemma ChunkSent(ss: S.State, sc: S.Config, k: nat, bufferSize: nat)
    requires ss.file.Some? && (ss.step == S.Waiting || ss.step == S.Sending) && k < TWO_32 && bufferSize < TWO_32
    ensures S.OnRequire(ss, sc, RequirePayload(k, bufferSize).value)
         == (ss.(step := S.Sending),
             Reply(Some(Packet(Send, Be32(k), Slice(ss.file.value.contents, k, k + Min(bufferSize, sc.bufferSize)))), true, Unfinished))
  {
    RequireRoundTrip(k, bufferSize);
  }

  /** A round is the receiver's answer to the chunk the sender sent. */
  lemma RoundStep(rs: R.State, rc: R.Config, ss: S.State, sc: S.Config, hash: Hash, require: bytes,
                  ss1: S.State, sent: Reply<SenderKind>)
    requires S.OnRequire(ss, sc, require) == (ss1, sent) && sent.Reply? && sent.packet.Some?
    ensures Round(rs, rc, ss, sc, hash, require)
         == (R.OnSend(rs, rc, hash, sent.packet.value.option, sent.packet.value.payload).0, ss1,
             R.OnSend(rs, rc, hash, sent.packet.value.option, sent.packet.value.payload).1)
  {}

  /** The rounds still needed once the receiver holds the first `k` bytes of a file of `size` bytes. */
  function RoundsLeft(size: nat, k: nat, n: nat): nat
    requires n > 0
  {
    if k >= size then 1 else RoundsNeeded(size - k, n)
  }

  /**
   * The transfer delivers: from a copy of the first `k` bytes, the rounds
   * needed end with the receiver holding exactly the sender's file and
   * reporting SUCCESS with what it recorded.
   */
  lemma {:induction false} Delivers(rs: R.State, rc: R.Config, ss: S.State, sc: S.Config, hash: Hash, contents: bytes, k: nat)
    requires Transferring(rs, rc, ss, sc, hash, contents, k)
    ensures Run(rs, rc, ss, sc, hash, RequireAt(rc, k), RoundsLeft(|contents|, k, ChunkSize(rc, sc))).0.file == Some(contents)
    ensures Run(rs, rc, ss, sc, hash, RequireAt(rc, k), RoundsLeft(|contents|, k, ChunkSize(rc, sc))).2
         == Reply(Some(Packet(Success, [], [])), false, Finished(true, "", [], rs.info))
    decreases |contents| - k, 1
  {
    if k + ChunkSize(rc, sc) >= |contents| {
      LastRound(rs, rc, ss, sc, hash, contents, k);
    } else {
      DeliversFurther(rs, rc, ss, sc, hash, contents, k);
    }
  }

  /** Delivery from a copy more than one chunk short of complete: a round, then the delivery from the longer copy. */
  lemma {:induction false} DeliversFurther(rs: R.State, rc: R.Config, ss: S.State, sc: S.Config, hash: Hash, contents: bytes, k: nat)
    requires Transferring(rs, rc, ss, sc, hash, contents, k) && k + ChunkSize(rc, sc) < |contents|
    ensures Run(rs, rc, ss, sc, hash, RequireAt(rc, k), RoundsLeft(|contents|, k, ChunkSize(rc, sc))).0.file == Some(contents)
    ensures Run(rs, rc, ss, sc, hash, RequireAt(rc, k), RoundsLeft(|contents|, k, ChunkSize(rc, sc))).2
         == Reply(Some(Packet(Success, [], [])), false, Finished(true, "", [], rs.info))
    decreases |contents| - k, 0
  {
    var rs1, ss1 := NextRound(rs, rc, ss, sc, hash, contents, k);
    Delivers(rs1, rc, ss1, sc, hash, contents, k + ChunkSize(rc, sc));
  }

  /** The run from a copy one chunk short of complete is its last round, which completes it. */
  lemma LastRound(rs: R.State, rc: R.Config, ss: S.State, sc: S.Config, hash: Hash, contents: bytes, k: nat)
    requires Transferring(rs, rc, ss, sc, hash, contents, k) && k + ChunkSize(rc, sc) >= |contents|
    ensures Run(rs, rc, ss, sc, hash, RequireAt(rc, k), RoundsLeft(|contents|, k, ChunkSize(rc, sc))).0.file == Some(contents)
    ensures Run(rs, rc, ss, sc, hash, RequireAt(rc, k), RoundsLeft(|contents|, k, ChunkSize(rc, sc))).2
         == Reply(Some(Packet(Success, [], [])), false, Finished(true, "", [], rs.info))
  {
    RoundCompletes(rs, rc, ss, sc, hash, contents, k);
    RunCompletes(rs, rc, ss, sc, hash, contents, k);
  }

  /** A run from a copy further from complete is a round, to the states `rs1` and `ss1`, followed by the run from the longer copy. */
  lemma NextRound(rs: R.State, rc: R.Config, ss: S.State, sc: S.Config, hash: Hash, contents: bytes, k: nat)
    returns (rs1: R.State, ss1: S.State)
    requires Transferring(rs, rc, ss, sc, hash, contents, k) && k + ChunkSize(rc, sc) < |contents|
    ensures Transferring(rs1, rc, ss1, sc, hash, contents, k + ChunkSize(rc, sc)) && rs1.info == rs.info
    ensures Run(rs, rc, ss, sc, hash, RequireAt(rc, k), RoundsLeft(|contents|, k, ChunkSize(rc, sc)))
         == Run(rs1, rc, ss1, sc, hash, RequireAt(rc, k + ChunkSize(rc, sc)), RoundsLeft(|contents|, k + ChunkSize(rc, sc), ChunkSize(rc, sc)))
  {
    rs1 := Round(rs, rc, ss, sc, hash, RequireAt(rc, k)).0;
    ss1 := Round(rs, rc, ss, sc, hash, RequireAt(rc, k)).1;
    RoundContinues(rs, rc, ss, sc, hash, contents, k);
    RunContinues(rs, rc, ss, sc, hash, contents, k, rs1, ss1);
  }

  /** The last round is the whole run. */
  lemma RunCompletes(rs: R.State, rc: R.Config, ss: S.State, sc: S.Config, hash: Hash, contents: bytes, k: nat)
    requires Transferring(rs, rc, ss, sc, hash, contents, k) && k + ChunkSize(rc, sc) >= |contents|
    ensures Run(rs, rc, ss, sc, hash, RequireAt(rc, k), RoundsLeft(|contents|, k, ChunkSize(rc, sc)))
         == Round(rs, rc, ss, sc, hash, RequireAt(rc, k))
  {
    RunOnce(rs, rc, ss, sc, hash, RequireAt(rc, k));
  }

  /** A round short of the end, to `rs1` and `ss1`, is followed by the rounds the rest of the file needs. */
  lemma RunContinues(rs: R.State, rc: R.Config, ss: S.State, sc: S.Config, hash: Hash, contents: bytes, k: nat,
                     rs1: R.State, ss1: S.State)
    requires 0 < ChunkSize(rc, sc) && k + ChunkSize(rc, sc) < |contents|
    requires Round(rs, rc, ss, sc, hash, RequireAt(rc, k))
          == (rs1, ss1, Reply(Some(Packet(Require, [], RequireAt(rc, k + ChunkSize(rc, sc)))), true, Unfinished))
    ensures Run(rs, rc, ss, sc, hash, RequireAt(rc, k), RoundsLeft(|contents|, k, ChunkSize(rc, sc)))
         == Run(rs1, rc, ss1, sc, hash, RequireAt(rc, k + ChunkSize(rc, sc)), RoundsLeft(|contents|, k + ChunkSize(rc, sc), ChunkSize(rc, sc)))
  {
    RoundsLeftStep(|contents|, k, ChunkSize(rc, sc));
    RunUnfold(rs, rc, ss, sc, hash, RequireAt(rc, k), RoundsLeft(|contents|, k + ChunkSize(rc, sc), ChunkSize(rc, sc)),
              rs1, ss1, RequireAt(rc, k + ChunkSize(rc, sc)));
  }

  /** One chunk further, one round fewer. */
  lemma RoundsLeftStep(size: nat, k: nat, n: nat)
    requires 0 < n && k + n < size
    ensures RoundsLeft(size, k, n) == RoundsLeft(size, k + n, n) + 1
  {
    assert size - k - n == size - (k + n);
  }

  /** A round, to `rs1` and `ss1`, that asks for `next` is followed by the rest of the run, started with `next`. */
  lemma RunUnfold(rs: R.State, rc: R.Config, ss: S.State, sc: S.Config, hash: Hash, require: bytes, m: nat,
                  rs1: R.State, ss1: S.State, next: bytes)
    requires m >= 1 && Round(rs, rc, ss, sc, hash, require) == (rs1, ss1, Reply(Some(Packet(Require, [], next)), true, Unfinished))
    ensures Run(rs, rc, ss, sc, hash, require, m + 1) == Run(rs1, rc, ss1, sc, hash, next, m)
  {}

  /** A run of one round is that round. */
  lemma RunOnce(rs: R.State, rc: R.Config, ss: S.State, sc: S.Config, hash: Hash, require: bytes)
    ensures Run(rs, rc, ss, sc, hash, require, 1) == Round(rs, rc, ss, sc, hash, require)
  {}

  /* ---- the handshake a receiver starts ---- */

  /** The receiver asks for the file its token names. */
  lemma ReceiverAsks(token: string)
    ensures R.Activate(R.INITIAL, token) == (R.INITIAL.(step := R.Requesting), Activated(Packet(ReceiverRequest, [], Text(token))))
  {}

  /** A sender with the default token check reads the token as the path of the file and announces that file. */
  lemma SenderAnnounces(sc: S.Config, hash: Hash, token: string, fs: S.FileSystem, forwarder: Option<string>)
    requires sc == S.DefaultConfig(forwarder)
    requires |token| < TWO_32 && token in fs && |fs[token]| < TWO_32 && |hash(fs[token])| < TWO_32
    ensures InfoPayload(token, hash(fs[token]), |fs[token]|).Some?
    ensures S.OnRequest(S.INITIAL, sc, hash, Text(token), fs)
         == (S.State(S.Waiting, Some(S.OpenFile(token, fs[token])), map["filename" := token]),
             Reply(Some(Packet(Info, [], InfoPayload(token, hash(fs[token]), |fs[token]|).value)), true, Unfinished))
  {
    SL.RequestServesFile(S.INITIAL, sc, hash, token, fs);
    var offered := S.State(S.Idle, Some(S.OpenFile(token, fs[token])), map["filename" := token]);
    assert S.INITIAL.(info := S.INITIAL.info["filename" := token], file := Some(S.OpenFile(token, fs[token]))) == offered;
    SL.AnnounceLaw(offered, hash);
    assert offered.info["filename" := token] == offered.info;
  }

  /** The receiver that asked takes the announcement: an empty copy, and a REQUIRE from offset 0. */
  lemma ReceiverStarts(rc: R.Config, token: string, digest: bytes, size: nat, stamp: string)
    requires Utf8.IsAscii(token) && InfoPayload(token, digest, size).Some? && rc.bufferSize < TWO_32
    ensures var (rs, require) := R.OnInfo(R.INITIAL.(step := R.Requesting), rc, InfoPayload(token, digest, size).value, stamp);
      rs.step == R.Receiving && rs.file == Some([]) && rs.expectedSize == Some(size) &&
      rs.expectedDigest == Some(digest) && rs.remainTries == DEFAULT_NTRIES &&
      rs.info == map["filename" := BaseName(token)]["path" := Join(rc.directory, BaseName(token) + "." + stamp)] &&
      require == Reply(Some(Packet(Require, [], RequireAt(rc, 0))), true, Unfinished)
  {
    RL.InfoStartsReceiving(R.INITIAL.(step := R.Requesting), rc, token, digest, size, stamp);
    RequireRoundTrip(0, rc.bufferSize);
  }

  /**
   * A whole session a receiver starts: after the handshake, the REQUIRE/SEND
   * rounds leave the receiver with exactly the file the sender holds under
   * the token's name, and SUCCESS reports the name without its directory.
   */
  lemma {:induction false} FileDelivered(rc: R.Config, sc: S.Config, hash: Hash, token: string, fs: S.FileSystem,
                                         stamp: string, forwarder: Option<string>)
    requires sc == S.DefaultConfig(forwarder)
    requires Utf8.IsAscii(token) && |token| < TWO_32 && token in fs && |fs[token]| < TWO_32 && |hash(fs[token])| < TWO_32
    requires 0 < rc.bufferSize < TWO_32
    ensures var contents := fs[token];
      var rs := R.State(R.Receiving, Some([]), Some(|contents|), Some(hash(contents)), DEFAULT_NTRIES,
                        map["filename" := BaseName(token)]["path" := Join(rc.directory, BaseName(token) + "." + stamp)]);
      var ss := S.State(S.Waiting, Some(S.OpenFile(token, contents)), map["filename" := token]);
      S.OnRequest(S.INITIAL, sc, hash, Text(token), fs).0 == ss &&
      R.OnInfo(R.Activate(R.INITIAL, token).0, rc, InfoPayload(token, hash(contents), |contents|).value, stamp).0 == rs &&
      var run := Run(rs, rc, ss, sc, hash, RequireAt(rc, 0), RoundsLeft(|contents|, 0, ChunkSize(rc, sc)));
      run.0.file == Some(contents) && run.2 == Reply(Some(Packet(Success, [], [])), false, Finished(true, "", [], rs.info))
  {
    var contents := fs[token];
    ReceiverAsks(token);
    SenderAnnounces(sc, hash, token, fs, forwarder);
    ReceiverStarts(rc, token, hash(contents), |contents|, stamp);
    var rs := R.State(R.Receiving, Some([]), Some(|contents|), Some(hash(contents)), DEFAULT_NTRIES,
                      map["filename" := BaseName(token)]["path" := Join(rc.directory, BaseName(token) + "." + stamp)]);
    var ss := S.State(S.Waiting, Some(S.OpenFile(token, contents)), map["filename" := token]);
    assert contents[..0] == [];
    Delivers(rs, rc, ss, sc, hash, contents, 0);
  }
}

/** The earlier sender and the earlier receiver talking to each other. */
module LegacySession {
  import opened Bytes
  import opened Wrappers
  import Utf8
  import opened Scheme
  import opened Transfer
  import R = LegacyReceiver
  import S = LegacySender
  import RL = LegacyReceiverLaws
  import SL = LegacySenderLaws

  /** The receiver accepts the sender's offer exactly when both ends are configured with the same token. */
  lemma TokensMustAgree(ss: S.State, sc: S.Config, path: string, fs: S.FileSystem, rs: R.State, rc: R.Config)
    requires ss.step == S.Idle && path in fs && rs.step == R.Idle
    ensures var a := S.Activate(ss, sc, path, fs).1;
      a.Activated? &&
      (R.OnRequest(rs, rc, a.packet.payload).0.step == R.Accepted <==> sc.token == rc.token)
  {
    SL.ActivationLaw(ss, sc, path, fs);
    RL.TokenLaw(rs, rc, S.Activate(ss, sc, path, fs).1.packet.payload);
  }

  /**
   * The sender writes the number of characters of the name where the
   * receiver expects the number of its UTF-8 bytes. Offering a file named
   * "é" therefore leaves the receiver stuck: the bytes it takes for the
   * name are not UTF-8, it raises after entering the receiving step, and it
   * never asks for a chunk.
   */
  lemma NonAsciiNameStrandsReceiver(ss: S.State, hash: Hash, fs: S.FileSystem, rs: R.State, rc: R.Config, stamp: string)
    requires ss.step == S.Requesting && ss.filename == Some("é") && "é" in fs
    requires |hash(fs["é"])| < TWO_32 && |fs["é"]| < TWO_32
    requires RL.Valid(rs) && rs.step == R.Accepted && rs.remainTry > 0
    ensures var (ss', r) := S.OnAccept(ss, hash, fs);
      ss'.step == S.Sending && r.Reply? && r.packet.Some? && r.packet.value.kind == Info &&
      RL.Stuck(R.OnInfo(rs, rc, r.packet.value.payload, stamp).0)
  {
    var contents := fs["é"];
    var info := InfoPayload("é", hash(contents), |contents|);
    assert info.Some?;
    NonAsciiNameUnreadable(hash(contents), |contents|);
    assert S.OnAccept(ss, hash, fs).1 == Reply(Some(Packet(Info, [], info.value)), true, Unfinished);
    RL.BadNameAfterAccept(rs, rc, info.value, stamp);
  }
}

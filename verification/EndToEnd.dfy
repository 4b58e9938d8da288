/** The whole way of a write set: received by a participant over any number of
    kData, sent as the bytes of a kLog message, stored, played and retried by the
    log player as the bytes of DbMsg messages, and read by a replica. */
module EndToEnd {
  import opened Bytes
  import opened CommitProtocol
  import opened CommitSafety
  import opened CommitTraces
  import opened LogStore
  import R = LogPlayerRuns
  import M = Messages
  import P = Participant

  const K_LOG: int := 116

  /** A participant's log message, as the bytes that sendLog writes. */
  function LogBytes(t: Txid, log: seq<P.Entry>, forceDefaults: bool, dedup: bool): seq<Byte> {
    M.DbtlBuffer(M.LogMsg(K_LOG, t, log), forceDefaults, dedup)
  }

  /** What the log store takes out of a kLog message. */
  function Stored(bytes: seq<Byte>): Option<seq<P.Entry>> {
    var m :- M.ReadDbtlMsg(bytes);
    if m.cmd == K_LOG then Some(m.data) else None
  }

  /** The events log t once, with this data. */
  predicate LoggedOnce(events: seq<R.Event>, t: Txid, w: seq<P.Entry>) {
    R.LoggedCount(events, t) == 1 && R.LoggedBy(events, t) == w
  }

  lemma {:induction false} LoggedBefore(events: seq<R.Event>, k: nat, t: Txid)
    requires k <= |events|
    ensures R.LoggedCount(events[..k], t) <= R.LoggedCount(events, t)
    ensures R.LoggedCount(events[..k], t) == R.LoggedCount(events, t) ==> R.LoggedBy(events[..k], t) == R.LoggedBy(events, t)
    decreases |events|
  {
    if k == |events| {
      assert events[..k] == events;
    } else {
      assert events[..|events| - 1][..k] == events[..k];
      LoggedBefore(events[..|events| - 1], k, t);
    }
  }

  /** What a replica reads from the bytes of a message of the log player. */
  function Received(m: Sent, forceDefaults: bool, dedup: bool): Option<(int, seq<P.Entry>)> {
    M.ReadDbMsg(M.DbBuffer(m.txid, m.data, forceDefaults, dedup))
  }

  predicate Sendable(m: Sent, forceDefaults: bool, dedup: bool) {
    |M.DbBuffer(m.txid, m.data, forceDefaults, dedup)| <= MAX_BUFFER_SIZE
  }

  /** For every log that a participant sends in a legal run: the log store reads it
      from the bytes of kLog, and if it logs that once, then from every message of
      every play and every retry, whatever else happens, the replica that gets it
      reads the transaction's number and exactly the write sets that all kData of
      the run brought, in order. */
  lemma LogFidelityEndToEnd(
    steps: seq<Step>, t: Txid, p: Pid, log: seq<P.Entry>, forceDefaults: bool, dedup: bool,
    events: seq<R.Event>, played: seq<seq<Sent>>, at: seq<nat>, n: nat, k: nat, j: nat)
    requires LegalRun(START, steps) && Run(START, steps).Some? && Participates(Run(START, steps).value, t, p)
    requires log in Hist(Run(START, steps).value, t, p).logs && M.Int32(t)
    requires |LogBytes(t, log, forceDefaults, dedup)| <= MAX_BUFFER_SIZE
    ensures Stored(LogBytes(t, log, forceDefaults, dedup)) == Some(Brought(steps, t, p))
    ensures
      && LoggedOnce(events, t, Stored(LogBytes(t, log, forceDefaults, dedup)).value)
      && R.PlayedAll(events, t, played, at, n) && k < |played| && j < |played[k]| && Sendable(played[k][j], forceDefaults, dedup)
      ==> Received(played[k][j], forceDefaults, dedup) == Some((t, Brought(steps, t, p)))
  {
    hide LegalRun, Run, Brought, M.DbtlBuffer, M.DbBuffer, M.ReadDbtlMsg, M.ReadDbMsg, R.LoggedBy, R.LoggedCount;
    LogFidelity(steps, t, p, |steps|, P.Done);
    M.DbtlMsgRoundTrip(M.LogMsg(K_LOG, t, log), forceDefaults, dedup);
    var all := Brought(steps, t, p);
    if LoggedOnce(events, t, all) && R.PlayedAll(events, t, played, at, n) && k < |played| && j < |played[k]|
      && Sendable(played[k][j], forceDefaults, dedup)
    {
      assert R.PlayedAt(events, at[k], t, played[k], n);
      LoggedBefore(events, at[k] + 1, t);
      M.DbMsgRoundTrip(t, all, forceDefaults, dedup);
    }
  }

  /** The same of the log player's class: fresh, over any events that log once what
      the store read, it plays, and each message is read as what was brought. */
  method Replicate(
    ghost steps: seq<Step>, t: Txid, ghost p: Pid, log: seq<P.Entry>, forceDefaults: bool, dedup: bool,
    events: seq<R.Event>, maxRetry: nat, reading: nat) returns (played: seq<seq<Sent>>)
    requires LegalRun(START, steps) && Run(START, steps).Some? && Participates(Run(START, steps).value, t, p)
    requires log in Hist(Run(START, steps).value, t, p).logs && M.Int32(t)
    requires |LogBytes(t, log, forceDefaults, dedup)| <= MAX_BUFFER_SIZE
    requires var w := Stored(LogBytes(t, log, forceDefaults, dedup));
      w.Some? ==> LoggedOnce(events, t, w.value)
    ensures played != []
    ensures forall k, j :: 0 <= k < |played| && 0 <= j < |played[k]| && Sendable(played[k][j], forceDefaults, dedup) ==>
      Received(played[k][j], forceDefaults, dedup) == Some((t, Brought(steps, t, p)))
  {
    hide LegalRun, Run, Brought, Sendable, Received, Stored, LogBytes, R.PlayedAll;
    LogFidelityEndToEnd(steps, t, p, log, forceDefaults, dedup, events, [], [], 0, 0, 0);
    var lp := new LogStore.LogPlayer(maxRetry, reading);
    var at;
    ghost var ops;
    played, at, ops := R.Drive(lp, events, t);
    forall k, j | 0 <= k < |played| && 0 <= j < |played[k]| && Sendable(played[k][j], forceDefaults, dedup)
      ensures Received(played[k][j], forceDefaults, dedup) == Some((t, Brought(steps, t, p)))
    {
      LogFidelityEndToEnd(steps, t, p, log, forceDefaults, dedup, events, played, at, |lp.View(t).retry|, k, j);
    }
  }
}

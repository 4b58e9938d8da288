/** One participant's view of one transaction: the entries that DbService,
    Dbtm and the log store keep for a txid, and a record of what has happened.
    Each handler of dbservicemain.cc, dbservice.cc, dbtm.cc and dbtl.cc is a
    function on it that may put one message or pool task in flight; None means
    that the handler dereferenced a map entry that was not there. */
module Participant {
  import opened Bytes

  /** A key, attribute and value; std::string holds bytes. */
  datatype Entry = Entry(key: seq<Byte>, attribute: seq<Byte>, value: seq<Byte>)

  /** struct transaction. lsn: -1 not requested, 0 requested, > 0 received. */
  datatype Trans = Trans(
    readSet: seq<Entry>, writeSet: seq<Entry>, needGlobal: bool, lsn: int, alreadyCommit: bool)

  const NEW_TRANS := Trans([], [], false, -1, false)

  /** Messages and thread-pool tasks in flight between this participant, the
      GTM and the log store, for this transaction. */
  datatype Item =
    | GetLsn                         // task Dbtm::getLsn
    | LsnRequest                     // kLsn to the log store
    | LsnReply(lsn: int)             // kLsn back
    | Check                          // task Dbtm::judgeLocalConflict
    | Vote(conflict: bool)           // kJudgeConflit to the GTM
    | Decide(conflict: bool)         // kJudgeConflit back
    | Solve(conflict: bool)          // task Dbtm::solve
    | Log(writes: seq<Entry>)        // kLog to the log store
    | Store(writes: seq<Entry>)      // task Dbtl::writeToDisk
    | Done                           // kTranSuccess back

  /** The delivered LSN, and whether kCommit was already in. */
  datatype Arrival = Arrival(lsn: int, afterCommit: bool)

  /** What has been observed so far; no handler reads it. */
  datatype History = History(
    received: seq<Entry>,            // write sets of all kData, in order
    committed: bool,                 // kCommit has arrived
    lsnRequests: nat,                // times getLsn was enqueued
    lsnIn: Option<Arrival>,          // the kLsn reply, once it is in
    checksQueued: nat,               // times the local check was enqueued
    checked: Option<bool>,           // did the local check find a conflict
    logs: seq<seq<Entry>>,           // every kLog sent
    plays: seq<seq<Entry>>,          // every log handed to the log player
    reports: seq<bool>,              // results reported: true is success
    frees: nat)                      // transactions deleted

  datatype Local = Local(
    trans: Option<Trans>,            // DbService::txidTrans_[txid]
    conn: bool,                      // DbService::table_ has the txid
    owned: Option<Trans>,            // Dbtm::table_[txid]
    logTable: seq<Entry>,            // Dbtl::logTable_[txid]
    h: History)

  const EMPTY := Local(None, false, None, [], History([], false, 0, None, 0, None, [], [], [], 0))

  /** The state after a handler, and what the handler put in flight. */
  datatype Out = Out(s: Local, item: Option<Item>)

  // ---------------------------------------------------------------------
  // Messages from the entity service

  /** getReadWriteSet. */
  function GetReadWriteSet(s: Local, rs: seq<Entry>, ws: seq<Entry>): Local {
    var t := if s.trans.Some? then s.trans.value else NEW_TRANS;
    s.(trans := Some(t.(readSet := t.readSet + rs, writeSet := t.writeSet + ws)),
       conn := true,
       h := s.h.(received := s.h.received + ws))
  }

  /** kData: the first one also requests an LSN. */
  function OnData(s: Local, rs: seq<Entry>, ws: seq<Entry>): Out {
    var s' := GetReadWriteSet(s, rs, ws);
    var t := s'.trans.value;
    if t.lsn == -1 then
      Out(s'.(trans := Some(t.(lsn := 0)), h := s'.h.(lsnRequests := s'.h.lsnRequests + 1)), Some(GetLsn))
    else Out(s', None)
  }

  function QueueCheck(s: Local): Out {
    Out(s.(h := s.h.(checksQueued := s.h.checksQueued + 1)), Some(Check))
  }

  /** kCommit: check now if the LSN is here, else leave a mark for it. */
  function OnCommit(s: Local, needGlobal: bool): Option<Out> {
    if s.trans.None? then None else
    var t := s.trans.value.(needGlobal := needGlobal);
    var s' := s.(h := s.h.(committed := true));
    if t.lsn > 0 then Some(QueueCheck(s'.(trans := Some(t))))
    else Some(Out(s'.(trans := Some(t.(alreadyCommit := true))), None))
  }

  // ---------------------------------------------------------------------
  // Deliveries

  /** kLsn reply. */
  function OnLsn(s: Local, lsn: int): Option<Out> {
    if s.trans.None? then None else
    var t := s.trans.value.(lsn := lsn);
    var s' := s.(trans := Some(t), h := s.h.(lsnIn := Some(Arrival(lsn, s.h.committed))));
    if t.alreadyCommit then Some(QueueCheck(s')) else Some(Out(s', None))
  }

  /** retResult: report, then delete the transaction that Dbtm owns, if any. */
  function RetResult(s: Local, success: bool): Option<Local> {
    if !s.conn then None else
    Some(s.(owned := None,
            h := s.h.(reports := s.h.reports + [success],
                      frees := s.h.frees + if s.owned.Some? then 1 else 0)))
  }

  /** cacheRWSet: index the write set and send kLog. */
  function CacheRWSet(s: Local): Option<Out> {
    if s.owned.None? then None else
    var w := s.owned.value.writeSet;
    Some(Out(s.(h := s.h.(logs := s.h.logs + [w])), Some(Log(w))))
  }

  /** judgeLocalConflict, given what the index answered. */
  function RunCheck(s: Local, conflict: bool): Option<Out> {
    if s.trans.None? then None else
    var t := s.trans.value;
    var s' := s.(h := s.h.(checked := Some(conflict)));
    if !conflict then
      var moved := s'.(owned := Some(t), trans := None);
      if t.needGlobal then Some(Out(moved, Some(Vote(false)))) else CacheRWSet(moved)
    else
      var r :- RetResult(s', false);
      Some(Out(r, if t.needGlobal then Some(Vote(true)) else None))
  }

  /** Dbtm::solve on the GTM's decision. */
  function RunSolve(s: Local, conflict: bool): Option<Out> {
    if !conflict then CacheRWSet(s) else
    var r :- RetResult(s, false);
    Some(Out(r, None))
  }

  /** Dbtl::writeToDisk: append to the log table, play it, answer. */
  function RunStore(s: Local, writes: seq<Entry>): Out {
    var table := s.logTable + writes;
    Out(s.(logTable := table, h := s.h.(plays := s.h.plays + [table])), Some(Done))
  }

  /** Delivery of one item other than a vote, which goes to the GTM. `conflict`
      is the local index's answer and `lsn` the log store's; both are free. */
  function Deliver(s: Local, i: Item, conflict: bool, lsn: int): Option<Out>
    requires !i.Vote?
  {
    match i
    case GetLsn => Some(Out(s, Some(LsnRequest)))
    case LsnRequest => Some(Out(s, Some(LsnReply(lsn))))
    case LsnReply(l) => OnLsn(s, l)
    case Check => RunCheck(s, conflict)
    case Decide(c) => Some(Out(s, Some(Solve(c))))
    case Solve(c) => RunSolve(s, c)
    case Log(w) => Some(Out(s, Some(Store(w))))
    case Store(w) => Some(RunStore(s, w))
    case Done =>
      var r :- RetResult(s, true);
      Some(Out(r, None))
  }

  // ---------------------------------------------------------------------
  // The states a participant goes through, with the one item in flight

  /** What the GTM knows about this participant's vote. */
  datatype GtmView = Unvoted | Counted | Decided(conflict: bool)

  predicate Fresh(h: History) {
    h.checked.None? && h.logs == [] && h.plays == [] && h.reports == [] && h.frees == 0
  }

  predicate Idle(s: Local, x: Option<Item>) { s == EMPTY && x.None? }

  predicate LsnPending(x: Option<Item>) {
    x.Some? && (x.value.GetLsn? || x.value.LsnRequest? || (x.value.LsnReply? && x.value.lsn >= 0))
  }

  /** Data has arrived; the LSN is on its way or has been delivered. */
  predicate Collecting(s: Local, x: Option<Item>, global: bool) {
    && s.trans.Some? && s.conn && s.owned.None? && s.logTable == [] && Fresh(s.h)
    && s.h.lsnRequests == 1 && s.h.checksQueued == 0
    && s.trans.value.writeSet == s.h.received
    && s.trans.value.alreadyCommit == s.h.committed
    && (s.h.committed ==> s.trans.value.needGlobal == global)
    && if x.Some? then LsnPending(x) && s.trans.value.lsn == 0 && s.h.lsnIn.None?
       else s.trans.value.lsn >= 0 && (s.h.committed ==> s.trans.value.lsn == 0)
            && s.h.lsnIn == Some(Arrival(s.trans.value.lsn, false))
  }

  /** Commit and LSN are in, and the LSN is positive or came second. */
  predicate Checkable(h: History) {
    h.committed && h.lsnIn.Some? && (h.lsnIn.value.lsn > 0 || h.lsnIn.value.afterCommit)
  }

  predicate Queued(s: Local, x: Option<Item>, global: bool) {
    && s.trans.Some? && s.conn && s.owned.None? && s.logTable == [] && Fresh(s.h)
    && Checkable(s.h) && s.h.lsnRequests == 1 && s.h.checksQueued == 1
    && s.trans.value.writeSet == s.h.received && s.trans.value.needGlobal == global
    && x == Some(Check)
  }

  /** Facts common to everything after the local check. */
  predicate AfterCheck(s: Local, conflict: bool) {
    && s.conn && Checkable(s.h) && s.h.lsnRequests == 1 && s.h.checksQueued == 1
    && s.h.checked == Some(conflict)
  }

  predicate Conflicting(s: Local, x: Option<Item>, global: bool, v: GtmView) {
    && AfterCheck(s, true) && s.trans.Some? && s.owned.None? && s.logTable == []
    && s.h.logs == [] && s.h.plays == [] && s.h.frees == 0
    && if !global then v.Unvoted? && x.None? && s.h.reports == [false]
       else match v
            case Unvoted => x == Some(Vote(true)) && s.h.reports == [false]
            case Counted => x.None? && s.h.reports == [false]
            case Decided(d) =>
              && d
              && if x.None? then s.h.reports == [false, false]
                 else s.h.reports == [false] && (x.value == Decide(true) || x.value == Solve(true))
  }

  /** The log is on its way through the log store. */
  predicate Logging(s: Local, x: Option<Item>) {
    && s.owned.Some? && s.h.logs == [s.h.received] && s.h.reports == [] && s.h.frees == 0
    && x.Some?
    && if x.value.Done? then s.h.plays == [s.h.received] && s.logTable == s.h.received
       else s.h.plays == [] && s.logTable == [] && (x.value == Log(s.h.received) || x.value == Store(s.h.received))
  }

  predicate Committed(s: Local, x: Option<Item>) {
    && s.owned.None? && s.h.logs == [s.h.received] && s.h.plays == [s.h.received]
    && s.logTable == s.h.received && s.h.reports == [true] && s.h.frees == 1 && x.None?
  }

  /** Clean, and no log sent: waiting for the GTM. */
  predicate Waiting(s: Local) {
    && s.owned.Some? && s.logTable == [] && s.h.logs == [] && s.h.plays == []
    && s.h.reports == [] && s.h.frees == 0
  }

  predicate Aborted(s: Local, x: Option<Item>) {
    && s.owned.None? && s.logTable == [] && s.h.logs == [] && s.h.plays == []
    && s.h.reports == [false] && s.h.frees == 1 && x.None?
  }

  predicate Clean(s: Local, x: Option<Item>, global: bool, v: GtmView) {
    && AfterCheck(s, false) && s.trans.None?
    && (s.owned.Some? ==> s.owned.value.writeSet == s.h.received)
    && if !global then v.Unvoted? && (Logging(s, x) || Committed(s, x))
       else match v
            case Unvoted => Waiting(s) && x == Some(Vote(false))
            case Counted => Waiting(s) && x.None?
            case Decided(d) =>
              || (Waiting(s) && (x == Some(Decide(d)) || x == Some(Solve(d))))
              || (!d && (Logging(s, x) || Committed(s, x)))
              || (d && Aborted(s, x))
  }

  /** Every reachable state of one participant is one of these. */
  predicate Good(s: Local, x: Option<Item>, global: bool, v: GtmView) {
    || (v.Unvoted? && (Idle(s, x) || Collecting(s, x, global) || Queued(s, x, global)))
    || Conflicting(s, x, global, v)
    || Clean(s, x, global, v)
  }

  // ---------------------------------------------------------------------
  // Every handler keeps the participant in a good state, and never faults

  /** kData puts its request in flight only when nothing is. */
  lemma DataGood(s: Local, x: Option<Item>, g: bool, rs: seq<Entry>, ws: seq<Entry>)
    requires Good(s, x, g, Unvoted) && !s.h.committed
    ensures var r := OnData(s, rs, ws);
      (r.item.Some? ==> x.None?) && Good(r.s, if r.item.Some? then r.item else x, g, Unvoted)
  {
  }

  lemma CommitGood(s: Local, x: Option<Item>, g: bool)
    requires Good(s, x, g, Unvoted) && !s.h.committed && s.h.lsnRequests > 0
    ensures OnCommit(s, g).Some?
    ensures var r := OnCommit(s, g).value;
      (r.item.Some? ==> x.None?) && Good(r.s, if r.item.Some? then r.item else x, g, Unvoted)
  {
  }

  lemma VoteGood(s: Local, x: Option<Item>, g: bool, v: GtmView)
    requires Good(s, x, g, v) && x.Some? && x.value.Vote?
    ensures g && v == Unvoted && s.h.checked == Some(x.value.conflict)
    ensures Good(s, None, g, Counted)
  {
  }

  lemma DecideGood(s: Local, x: Option<Item>, d: bool)
    requires Good(s, x, true, Counted) && (s.h.checked == Some(true) ==> d)
    ensures x.None? && s.h.checked.Some? && Good(s, Some(Decide(d)), true, Decided(d))
  {
  }

  lemma LsnGood(s: Local, x: Option<Item>, g: bool, lsn: nat)
    requires Good(s, x, g, Unvoted) && LsnPending(x)
    ensures var r := Deliver(s, x.value, false, lsn);
      r.Some? && Good(r.value.s, r.value.item, g, Unvoted)
  {
    assert Collecting(s, x, g);
    var r := Deliver(s, x.value, false, lsn).value;
    assert Collecting(r.s, r.item, g) || Queued(r.s, r.item, g);
  }

  /** The index's answer decides: a conflict is reported as a failure and voted,
      a clean check is voted or, without others to ask, logged. */
  lemma CheckGood(s: Local, g: bool, conflict: bool)
    requires Queued(s, Some(Check), g)
    ensures var r := RunCheck(s, conflict);
      r.Some? && Good(r.value.s, r.value.item, g, Unvoted)
    ensures var r := RunCheck(s, conflict).value;
      && r.s.h.checked == Some(conflict)
      && r.s.h.reports == (if conflict then [false] else [])
      && r.item == if g then Some(Vote(conflict)) else if conflict then None else Some(Log(s.h.received))
  {
    var r := RunCheck(s, conflict).value;
    assert if conflict then Conflicting(r.s, r.item, g, Unvoted) else Clean(r.s, r.item, g, Unvoted);
  }

  lemma DecisionGood(s: Local, x: Option<Item>, g: bool, v: GtmView)
    requires Good(s, x, g, v) && x.Some? && (x.value.Decide? || x.value.Solve?)
    ensures var r := Deliver(s, x.value, false, 0);
      r.Some? && Good(r.value.s, r.value.item, g, v)
  {
    assert v == Decided(x.value.conflict);
    var r := Deliver(s, x.value, false, 0).value;
    assert if Conflicting(s, x, g, v) then Conflicting(r.s, r.item, g, v) else Clean(r.s, r.item, g, v);
  }

  lemma LogGood(s: Local, x: Option<Item>, g: bool, v: GtmView)
    requires Good(s, x, g, v) && x.Some? && (x.value.Log? || x.value.Store? || x.value.Done?)
    ensures var r := Deliver(s, x.value, false, 0);
      r.Some? && Good(r.value.s, r.value.item, g, v)
  {
    assert Clean(s, x, g, v) && Logging(s, x);
    var r := Deliver(s, x.value, false, 0).value;
    assert [] + s.h.received == s.h.received;
    assert if x.value.Done? then Committed(r.s, r.item) else Logging(r.s, r.item);
    assert Clean(r.s, r.item, g, v);
  }

  /** One delivery, whatever the index and the log store answer. */
  lemma DeliverGood(s: Local, x: Option<Item>, g: bool, v: GtmView, conflict: bool, lsn: nat)
    requires Good(s, x, g, v) && x.Some? && !x.value.Vote?
    ensures var r := Deliver(s, x.value, conflict, lsn);
      r.Some? && Good(r.value.s, r.value.item, g, v)
    ensures v.Unvoted? || Deliver(s, x.value, conflict, lsn).value.s.h.checked == s.h.checked
    ensures s.h.lsnIn.Some? ==> Deliver(s, x.value, conflict, lsn).value.s.h.lsnIn == s.h.lsnIn
    ensures s.h.checked.Some? ==> Deliver(s, x.value, conflict, lsn).value.s.h.checked == s.h.checked
  {
    match x.value
    case GetLsn => LsnGood(s, x, g, lsn);
    case LsnRequest => LsnGood(s, x, g, lsn);
    case LsnReply(_) => LsnGood(s, x, g, lsn);
    case Check => CheckGood(s, g, conflict);
    case Decide(_) => DecisionGood(s, x, g, v);
    case Solve(_) => DecisionGood(s, x, g, v);
    case Log(_) => LogGood(s, x, g, v);
    case Store(_) => LogGood(s, x, g, v);
    case Done => LogGood(s, x, g, v);
  }

  // ---------------------------------------------------------------------
  // What a good state rules out

  /** The log store gets the received write sets, in order, at most once. */
  lemma LogsAreReceived(s: Local, x: Option<Item>, g: bool, v: GtmView)
    requires Good(s, x, g, v)
    ensures s.h.logs == [] || s.h.logs == [s.h.received]
    ensures s.h.plays == [] || (s.h.plays == [s.h.received] && s.h.logs == [s.h.received])
    ensures s.h.logs != [] ==> s.h.checked == Some(false) && (g ==> v == Decided(false))
  {
  }

  /** Success is reported only after the log went out, failure only on a
      conflict of its own or the GTM's. */
  lemma ReportsAreSound(s: Local, x: Option<Item>, g: bool, v: GtmView)
    requires Good(s, x, g, v)
    ensures true in s.h.reports ==> s.h.reports == [true] && s.h.plays == [s.h.received]
    ensures false in s.h.reports ==> s.h.checked == Some(true) || (g && v == Decided(true))
    ensures |s.h.reports| <= if g && s.h.checked == Some(true) then 2 else 1
    ensures s.h.frees <= 1 && (s.h.frees == 1 ==> s.owned.None? && s.trans.None?)
  {
  }

  /** The LSN is requested with the first data and never again, and the check
      is enqueued exactly once, exactly when it may be. */
  lemma HandshakeExact(s: Local, x: Option<Item>, g: bool, v: GtmView)
    requires Good(s, x, g, v)
    ensures s.h.lsnRequests == if s.conn then 1 else 0
    ensures s.h.checksQueued == if Checkable(s.h) then 1 else 0
  {
  }

  /** With nothing in flight and the check enqueued, either the participant is
      waiting for the GTM or it has reported everything it will. */
  lemma QuietIsFinal(s: Local, g: bool, v: GtmView)
    requires Good(s, None, g, v) && Checkable(s.h)
    ensures s.h.checked.Some? && (g ==> !v.Unvoted?)
    ensures !g || v.Decided? ==>
      if s.h.checked.value then s.h.reports == if g then [false, false] else [false]
      else if g && v.conflict then s.h.reports == [false] && s.h.frees == 1
      else s.h.reports == [true] && s.h.frees == 1 && s.h.plays == [s.h.received]
  {
  }
}

/** What a run of the commit protocol shows from outside: the steps alone, with
    the data they brought and the answers they were given, determine every
    participant's history. So the safety theorems can be read off the steps. */
module CommitTraces {
  import opened Bytes
  import opened Participant
  import opened CommitProtocol
  import opened CommitSafety
  import opened CommitProgress
  import Gtm

  // ---------------------------------------------------------------------
  // Reading the steps

  /** What an observer of the steps notes for one participant. */
  datatype Seen = Seen(
    readSets: seq<Entry>,            // read sets of all kData, in order
    writes: seq<Entry>,              // write sets of all kData, in order
    data: nat,                       // kData taken
    committed: bool,
    asked: nat,                      // getLsn tasks run
    lsn: Option<int>,                // what the log store answered
    arrived: Option<Arrival>,        // the answer's arrival
    checks: nat,                     // local checks run
    answer: Option<bool>,            // what the index answered the check
    logs: seq<seq<Entry>>,           // kLog messages delivered
    stores: seq<seq<Entry>>,         // writes to disk
    reports: seq<bool>)              // results owed to the entity service

  const UNSEEN := Seen([], [], 0, false, 0, None, None, 0, None, [], [], [])

  function SeeItem(o: Seen, i: Item, conflict: bool, lsn: nat): Seen {
    match i
    case GetLsn => o.(asked := o.asked + 1)
    case LsnRequest => o.(lsn := Some(lsn))
    case LsnReply(_) => if o.lsn.Some? then o.(arrived := Some(Arrival(o.lsn.value, o.committed))) else o
    case Check => o.(checks := o.checks + 1, answer := Some(conflict), reports := if conflict then o.reports + [false] else o.reports)
    case Solve(c) => if c then o.(reports := o.reports + [false]) else o
    case Log(w) => o.(logs := o.logs + [w])
    case Store(w) => o.(stores := o.stores + [w])
    case Done => o.(reports := o.reports + [true])
    case _ => o
  }

  function See(o: Seen, step: Step, t: Txid, p: Pid): Seen {
    match step
    case Data(u, q, rs, ws) =>
      if u == t && q == p then o.(readSets := o.readSets + rs, writes := o.writes + ws, data := o.data + 1) else o
    case Commit(u, q) => if u == t && q == p then o.(committed := true) else o
    case Delivery(u, q, i, conflict, lsn) => if u == t && q == p then SeeItem(o, i, conflict, lsn) else o
    case Begin(_) => o
  }

  function Observe(steps: seq<Step>, t: Txid, p: Pid): Seen
    decreases |steps|
  {
    if steps == [] then UNSEEN else See(Observe(steps[..|steps| - 1], t, p), steps[|steps| - 1], t, p)
  }

  /** The write sets that all kData brought, in order. */
  function Brought(steps: seq<Step>, t: Txid, p: Pid): seq<Entry> {
    Observe(steps, t, p).writes
  }

  lemma ObserveNext(steps: seq<Step>, step: Step, t: Txid, p: Pid)
    ensures Observe(steps + [step], t, p) == See(Observe(steps, t, p), step, t, p)
  {
    assert (steps + [step])[..|steps|] == steps;
  }

  // ---------------------------------------------------------------------
  // The history is what was seen

  function Pending(x: Option<Item>, i: Item): nat { if x == Some(i) then 1 else 0 }

  function PendingLog(x: Option<Item>): seq<seq<Entry>> {
    if x.Some? && x.value.Log? then [x.value.writes] else []
  }

  predicate Traced(o: Seen, l: Local, x: Option<Item>) {
    && l.h.received == o.writes && l.h.committed == o.committed && l.conn == (o.data > 0)
    && (o.data == 0 ==> o.readSets == [])
    && (l.trans.Some? ==> l.trans.value.readSet == o.readSets) && (l.owned.Some? ==> l.owned.value.readSet == o.readSets)
    && l.h.lsnRequests == o.asked + Pending(x, GetLsn)
    && (x.Some? && x.value.LsnReply? ==> o.lsn == Some(x.value.lsn))
    && l.h.lsnIn == o.arrived
    && l.h.checksQueued == o.checks + Pending(x, Check)
    && l.h.checked == o.answer
    && l.h.logs == o.logs + PendingLog(x)
    && l.h.plays == o.stores
    && l.h.reports == o.reports
  }

  lemma DataTraced(o: Seen, l: Local, x: Option<Item>, g: bool, rs: seq<Entry>, ws: seq<Entry>)
    requires Traced(o, l, x) && Good(l, x, g, Unvoted) && !l.h.committed
    ensures var r := OnData(l, rs, ws);
      Traced(o.(readSets := o.readSets + rs, writes := o.writes + ws, data := o.data + 1), r.s, if r.item.Some? then r.item else x)
  {
  }

  lemma CommitTraced(o: Seen, l: Local, x: Option<Item>, g: bool)
    requires Traced(o, l, x) && Good(l, x, g, Unvoted) && !l.h.committed && l.h.lsnRequests > 0
    ensures OnCommit(l, g).Some?
    ensures var r := OnCommit(l, g).value;
      Traced(o.(committed := true), r.s, if r.item.Some? then r.item else x)
  {
  }

  lemma DeliveryTraced(o: Seen, l: Local, i: Item, g: bool, v: GtmView, conflict: bool, lsn: nat)
    requires Traced(o, l, Some(i)) && Good(l, Some(i), g, v) && !i.Vote?
    ensures Deliver(l, i, conflict, lsn).Some?
    ensures var r := Deliver(l, i, conflict, lsn).value;
      Traced(SeeItem(o, i, conflict, lsn), r.s, r.item)
  {
    hide Good, Traced, OnLsn, RunCheck, RunSolve, RunStore, RetResult;
    match i
    case GetLsn => AskTraced(o, l, i, g, v, lsn);
    case LsnRequest => AskTraced(o, l, i, g, v, lsn);
    case LsnReply(_) => LsnTraced(o, l, i, g, v);
    case Check => CheckTraced(o, l, g, v, conflict);
    case Decide(_) => SolveTraced(o, l, i, g, v);
    case Solve(_) => SolveTraced(o, l, i, g, v);
    case Log(_) => StoreTraced(o, l, i, g, v);
    case Store(_) => StoreTraced(o, l, i, g, v);
    case Done => StoreTraced(o, l, i, g, v);
  }

  lemma AskTraced(o: Seen, l: Local, i: Item, g: bool, v: GtmView, lsn: nat)
    requires Traced(o, l, Some(i)) && Good(l, Some(i), g, v) && (i.GetLsn? || i.LsnRequest?)
    ensures Traced(SeeItem(o, i, false, lsn), l, Deliver(l, i, false, lsn).value.item)
  {
    assert Collecting(l, Some(i), g);
    hide Good;
  }

  lemma SolveTraced(o: Seen, l: Local, i: Item, g: bool, v: GtmView)
    requires Traced(o, l, Some(i)) && Good(l, Some(i), g, v) && (i.Decide? || i.Solve?)
    ensures Deliver(l, i, false, 0).Some?
    ensures var r := Deliver(l, i, false, 0).value;
      Traced(SeeItem(o, i, false, 0), r.s, r.item)
  {
    assert if Conflicting(l, Some(i), g, v) then i.conflict else Waiting(l);
  }

  lemma StoreTraced(o: Seen, l: Local, i: Item, g: bool, v: GtmView)
    requires Traced(o, l, Some(i)) && Good(l, Some(i), g, v) && (i.Log? || i.Store? || i.Done?)
    ensures Deliver(l, i, false, 0).Some?
    ensures var r := Deliver(l, i, false, 0).value;
      Traced(SeeItem(o, i, false, 0), r.s, r.item)
  {
    assert Logging(l, Some(i)) && l.conn;
    hide Good;
    if i.Store? { assert l.logTable + i.writes == i.writes; }
  }

  lemma LsnTraced(o: Seen, l: Local, i: Item, g: bool, v: GtmView)
    requires Traced(o, l, Some(i)) && Good(l, Some(i), g, v) && i.LsnReply?
    ensures OnLsn(l, i.lsn).Some?
    ensures var r := OnLsn(l, i.lsn).value;
      Traced(SeeItem(o, i, false, 0), r.s, r.item)
  {
    assert Collecting(l, Some(i), g);
    hide Good;
  }

  lemma CheckTraced(o: Seen, l: Local, g: bool, v: GtmView, conflict: bool)
    requires Traced(o, l, Some(Check)) && Good(l, Some(Check), g, v)
    ensures RunCheck(l, conflict).Some?
    ensures var r := RunCheck(l, conflict).value;
      Traced(SeeItem(o, Check, conflict, 0), r.s, r.item)
  {
    assert Queued(l, Some(Check), g);
    hide Good;
  }

  /** Items that the history does not wait for. */
  predicate Neutral(x: Option<Item>) {
    x.None? || x.value.Vote? || x.value.Decide? || x.value.Solve?
  }

  /** A vote and its answer move only neutral items. */
  lemma MoveNeutral(l: Local, x: Option<Item>, x': Option<Item>, v: GtmView, v': GtmView)
    requires Good(l, x, true, v) && Good(l, x', true, v')
    requires (v.Unvoted? && !v'.Unvoted?) || (v.Counted? && v'.Decided?)
    ensures Neutral(x) && Neutral(x')
  {
  }

  lemma NeutralTraced(o: Seen, l: Local, x: Option<Item>, x': Option<Item>)
    requires Traced(o, l, x) && Neutral(x) && Neutral(x')
    ensures Traced(o, l, x')
  {
  }

  ghost function ItemAt(s: Sys, t: Txid, p: Pid): Option<Item> {
    if Participates(s, t, p) then Only(s.txs[t].flight[p]) else None
  }

  function LocalAt(s: Sys, t: Txid, p: Pid): Local {
    if Participates(s, t, p) then s.txs[t].local[p] else EMPTY
  }

  ghost predicate TracedAt(s: Sys, o: Seen, t: Txid, p: Pid) {
    Traced(o, LocalAt(s, t, p), ItemAt(s, t, p))
  }

  /** A step elsewhere leaves the participant alone. */
  lemma SameAt(s: Sys, s': Sys, o: Seen, t: Txid, p: Pid)
    requires TracedAt(s, o, t, p) && LocalAt(s', t, p) == LocalAt(s, t, p) && ItemAt(s', t, p) == ItemAt(s, t, p)
    ensures TracedAt(s', o, t, p)
  {
    hide Traced, LocalAt, ItemAt;
  }

  lemma PutAt(s: Sys, t: Txid, p: Pid, l: Local, x: Option<Item>, q: Pid)
    requires Participates(s, t, p)
    ensures var s' := With(s, t, Put(s.txs[t], p, l, Emit(x)));
      if q == p then LocalAt(s', t, q) == l && ItemAt(s', t, q) == x
      else LocalAt(s', t, q) == LocalAt(s, t, q) && ItemAt(s', t, q) == ItemAt(s, t, q)
  {
    hide Only;
    OnlyEmit(x);
  }

  lemma PairAt(s: Sys, t: Txid, p: Pid)
    requires Inv(s) && Participates(s, t, p)
    ensures var tx := s.txs[t];
      && Good(tx.local[p], ItemAt(s, t, p), |tx.parts| > 1, View(tx, p))
      && tx.flight[p] == Emit(ItemAt(s, t, p))
  {
    hide Good, View, Only, VotesOk, CountOk;
    TxShape(s, t);
    assert PairOk(s.txs[t], p, View(s.txs[t], p));
  }

  lemma BeginAt(s: Sys, parts: set<Pid>, t: Txid, p: Pid)
    requires Inv(s)
    ensures var s' := Next(s, Begin(parts)).value;
      LocalAt(s', t, p) == LocalAt(s, t, p) && ItemAt(s', t, p) == ItemAt(s, t, p)
  {
    hide TxInv;
    OnlyEmit(None);
  }

  lemma DataAt(s: Sys, o: Seen, t: Txid, p: Pid, rs: seq<Entry>, ws: seq<Entry>, q: Pid)
    requires Inv(s) && Legal(s, Data(t, p, rs, ws)) && Next(s, Data(t, p, rs, ws)).Some? && TracedAt(s, o, t, q)
    ensures TracedAt(Next(s, Data(t, p, rs, ws)).value, See(o, Data(t, p, rs, ws), t, q), t, q)
  {
    hide Good, Traced, OnData, LocalAt, ItemAt, View, Emit, Inv;
    LocalDef(s, t, p);
    PairAt(s, t, p);
    var tx, x := s.txs[t], ItemAt(s, t, p);
    var r := OnData(tx.local[p], rs, ws);
    UncommittedUnvoted(tx.local[p], x, |tx.parts| > 1, View(tx, p));
    DataGood(tx.local[p], x, |tx.parts| > 1, rs, ws);
    BagAdd(x, r.item);
    PutAt(s, t, p, r.s, if r.item.Some? then r.item else x, q);
    if q == p { DataTraced(o, tx.local[p], x, |tx.parts| > 1, rs, ws); }
  }

  lemma LocalDef(s: Sys, t: Txid, p: Pid)
    requires Inv(s) && t in s.txs && p in s.txs[t].parts
    ensures Participates(s, t, p) && LocalAt(s, t, p) == s.txs[t].local[p]
  {
    hide PairOk, VotesOk, CountOk;
    TxShape(s, t);
  }

  lemma CommitAt(s: Sys, o: Seen, t: Txid, p: Pid, q: Pid)
    requires Inv(s) && Legal(s, Commit(t, p)) && Next(s, Commit(t, p)).Some? && TracedAt(s, o, t, q)
    ensures TracedAt(Next(s, Commit(t, p)).value, See(o, Commit(t, p), t, q), t, q)
  {
    hide Good, Traced, OnCommit, LocalAt, ItemAt, View, Emit, Inv;
    LocalDef(s, t, p);
    PairAt(s, t, p);
    var tx, x := s.txs[t], ItemAt(s, t, p);
    UncommittedUnvoted(tx.local[p], x, |tx.parts| > 1, View(tx, p));
    CommitGood(tx.local[p], x, |tx.parts| > 1);
    var r := OnCommit(tx.local[p], |tx.parts| > 1).value;
    BagAdd(x, r.item);
    PutAt(s, t, p, r.s, if r.item.Some? then r.item else x, q);
    if q == p { CommitTraced(o, tx.local[p], x, |tx.parts| > 1); }
  }

  lemma DeliveryAt(s: Sys, o: Seen, step: Step, q: Pid)
    requires Inv(s) && step.Delivery? && !step.item.Vote? && Legal(s, step) && Next(s, step).Some? && TracedAt(s, o, step.t, q)
    ensures TracedAt(Next(s, step).value, See(o, step, step.t, q), step.t, q)
  {
    hide Good, Traced, Deliver, LocalAt, ItemAt, View, Emit, Inv, SeeItem;
    var t, p, i := step.t, step.p, step.item;
    LocalDef(s, t, p);
    InFlight(s, t, p, i);
    PairAt(s, t, p);
    var tx := s.txs[t];
    var r := Deliver(tx.local[p], i, step.conflict, step.lsn).value;
    BagSwap(i, r.item);
    PutAt(s, t, p, r.s, r.item, q);
    if q == p { DeliveryTraced(o, tx.local[p], i, |tx.parts| > 1, View(tx, p), step.conflict, step.lsn); }
  }

  lemma InFlight(s: Sys, t: Txid, p: Pid, i: Item)
    requires Inv(s) && Participates(s, t, p) && i in s.txs[t].flight[p]
    ensures ItemAt(s, t, p) == Some(i)
  {
    hide Good, View, Only, VotesOk, CountOk;
    TxShape(s, t);
    BagOf(s.txs[t], p, View(s.txs[t], p), i);
  }

  lemma VoteAt(s: Sys, o: Seen, step: Step, q: Pid)
    requires Inv(s) && step.Delivery? && step.item.Vote? && Legal(s, step) && Next(s, step).Some? && TracedAt(s, o, step.t, q)
    ensures TracedAt(Next(s, step).value, See(o, step, step.t, q), step.t, q)
  {
    hide PairOk, Traced, VoteStep, View, Emit, Only, VotesOk, CountOk;
    var t, p, vote, tx := step.t, step.p, step.item.conflict, s.txs[step.t];
    var s' := Next(s, step).value;
    TxShape(s, t);
    BagOf(tx, p, View(tx, p), step.item);
    VoteOk(s.gtm, t, tx, p, vote);
    NextOk(s, step);
    if q in tx.parts {
      VoteMoves(s.gtm, t, tx, p, vote, q);
      VoteInFlight(s.gtm, t, tx, p, vote);
      hide Inv, TxInv;
      MovedAt(s, s', o, t, q);
    } else {
      SameAt(s, s', o, t, q);
    }
  }

  lemma MovedAt(s: Sys, s': Sys, o: Seen, t: Txid, q: Pid)
    requires Inv(s) && Inv(s') && Participates(s, t, q) && Participates(s', t, q) && TracedAt(s, o, t, q)
    requires var tx, tx' := s.txs[t], s'.txs[t];
      && tx'.local == tx.local && tx'.parts == tx.parts && |tx.parts| > 1
      && if View(tx', q) == View(tx, q) then tx'.flight[q] == tx.flight[q]
         else View(tx, q).Unvoted? || (View(tx, q).Counted? && View(tx', q).Decided?)
    ensures TracedAt(s', o, t, q)
  {
    hide Good, Traced, View, Emit, Only, Inv;
    var tx, tx' := s.txs[t], s'.txs[t];
    if View(tx', q) == View(tx, q) {
      SameAt(s, s', o, t, q);
    } else {
      PairAt(s, t, q);
      PairAt(s', t, q);
      MoveNeutral(tx.local[q], ItemAt(s, t, q), ItemAt(s', t, q), View(tx, q), View(tx', q));
      NeutralTraced(o, tx.local[q], ItemAt(s, t, q), ItemAt(s', t, q));
    }
  }

  lemma StepTraced(s: Sys, step: Step, o: Seen, t: Txid, p: Pid)
    requires Inv(s) && Legal(s, step) && Next(s, step).Some? && TracedAt(s, o, t, p)
    ensures TracedAt(Next(s, step).value, See(o, step, t, p), t, p)
  {
    hide TracedAt, Inv, Put, Emit, Deliver, OnData, OnCommit, VoteStep, SeeItem, Only;
    var s' := Next(s, step).value;
    match step
    case Begin(parts) =>
      BeginAt(s, parts, t, p);
      SameAt(s, s', o, t, p);
    case Data(u, q, rs, ws) => if u == t { DataAt(s, o, t, q, rs, ws, p); } else { SameAt(s, s', o, t, p); }
    case Commit(u, q) => if u == t { CommitAt(s, o, t, q, p); } else { SameAt(s, s', o, t, p); }
    case Delivery(u, q, i, _, _) =>
      if u != t { SameAt(s, s', o, t, p); }
      else if i.Vote? { VoteAt(s, o, step, p); }
      else { DeliveryAt(s, o, step, p); }
  }

  // ---------------------------------------------------------------------
  // Runs

  lemma {:induction false} RunSplit(s: Sys, a: seq<Step>, b: seq<Step>)
    requires Inv(s) && LegalRun(s, a + b)
    ensures LegalRun(s, a) && Run(s, a).Some? && Inv(Run(s, a).value)
    ensures LegalRun(Run(s, a).value, b) && Run(s, a + b) == Run(Run(s, a).value, b)
    decreases |a|
  {
    hide Next, Legal, Inv;
    if a == [] {
      assert a + b == b;
    } else {
      assert (a + b)[1..] == a[1..] + b;
      NextOk(s, a[0]);
      RunSplit(Next(s, a[0]).value, a[1..], b);
    }
  }

  /** The state in the middle of a run, and the step taken there. */
  lemma Midway(steps: seq<Step>, k: nat) returns (s: Sys)
    requires LegalRun(START, steps) && k < |steps|
    ensures LegalRun(START, steps[..k]) && Run(START, steps[..k]) == Some(s) && Inv(s) && Reachable(s)
    ensures Legal(s, steps[k]) && Next(s, steps[k]).Some? && LegalRun(s, steps[k..])
    ensures LegalRun(Next(s, steps[k]).value, steps[k + 1..])
    ensures Run(START, steps) == Run(Next(s, steps[k]).value, steps[k + 1..])
  {
    hide Next, Legal, Inv;
    StartOk();
    assert steps == steps[..k] + steps[k..];
    RunSplit(START, steps[..k], steps[k..]);
    s := Run(START, steps[..k]).value;
    assert steps[k..][1..] == steps[k + 1..];
    NextOk(s, steps[k]);
  }

  /** The history of every participant is what the steps show. */
  lemma {:induction false} HistoryIsTrace(steps: seq<Step>, t: Txid, p: Pid)
    requires LegalRun(START, steps)
    ensures Run(START, steps).Some? && TracedAt(Run(START, steps).value, Observe(steps, t, p), t, p)
    decreases |steps|
  {
    hide Next, Legal, Inv, See;
    if steps != [] {
      var k := |steps| - 1;
      var s := Midway(steps, k);
      HistoryIsTrace(steps[..k], t, p);
      StepTraced(s, steps[k], Observe(steps[..k], t, p), t, p);
      assert steps[k + 1..] == [];
    }
  }

  /** The local check of a participant was run and answered so. */
  predicate Checks(step: Step, t: Txid, p: Pid, conflict: bool) {
    step.Delivery? && step.t == t && step.p == p && step.item.Check? && step.conflict == conflict
  }

  predicate CheckedIn(steps: seq<Step>, t: Txid, p: Pid, conflict: bool) {
    exists k :: 0 <= k < |steps| && Checks(steps[k], t, p, conflict)
  }

  lemma {:induction false} AnswerWasGiven(steps: seq<Step>, t: Txid, p: Pid)
    ensures var a := Observe(steps, t, p).answer;
      a.Some? ==> CheckedIn(steps, t, p, a.value)
    decreases |steps|
  {
    if steps != [] {
      var n := |steps| - 1;
      var before := steps[..n];
      AnswerWasGiven(before, t, p);
      var a := Observe(steps, t, p).answer;
      if a.Some? {
        if !Checks(steps[n], t, p, a.value) {
          var k :| 0 <= k < |before| && Checks(before[k], t, p, a.value);
          assert Checks(steps[k], t, p, a.value);
        }
      }
    }
  }

  /** An answer of the index is on record from its check on. */
  lemma AnswerIsKept(steps: seq<Step>, t: Txid, p: Pid, conflict: bool)
    requires LegalRun(START, steps) && CheckedIn(steps, t, p, conflict)
    ensures Run(START, steps).Some? && Participates(Run(START, steps).value, t, p)
    ensures Hist(Run(START, steps).value, t, p).checked == Some(conflict)
  {
    var k :| 0 <= k < |steps| && Checks(steps[k], t, p, conflict);
    var s := Midway(steps, k);
    hide Inv, Next, LegalRun, Run, Observe, Reachable, Participates;
    HistoryIsTrace(steps[..k], t, p);
    NextOk(s, steps[k]);
    CheckTaken(s, steps[k], Observe(steps[..k], t, p));
    CheckedStays(Next(s, steps[k]).value, steps[k + 1..], t, p);
  }

  lemma CheckTaken(s: Sys, step: Step, o: Seen)
    requires Inv(s) && step.Delivery? && step.item.Check? && Legal(s, step) && Next(s, step).Some?
    requires TracedAt(s, o, step.t, step.p)
    ensures var s' := Next(s, step).value;
      Participates(s', step.t, step.p) && Hist(s', step.t, step.p).checked == Some(step.conflict)
  {
    hide Inv, Next, SeeItem, Deliver, ItemAt;
    var t, p, s' := step.t, step.p, Next(s, step).value;
    LocalDef(s, t, p);
    HistoryStays(s, step, t, p);
    StepTraced(s, step, o, t, p);
    CheckSeen(o, step);
    assert Traced(See(o, step, t, p), LocalAt(s', t, p), ItemAt(s', t, p));
  }

  lemma CheckSeen(o: Seen, step: Step)
    requires step.Delivery? && step.item.Check?
    ensures See(o, step, step.t, step.p).answer == Some(step.conflict)
  {
  }

  /** At the end of a run, a participant's check is on record exactly as answered. */
  lemma CheckedExactly(steps: seq<Step>, t: Txid, p: Pid, conflict: bool)
    requires LegalRun(START, steps) && Run(START, steps).Some? && Participates(Run(START, steps).value, t, p)
    ensures Hist(Run(START, steps).value, t, p).checked == Some(conflict) <==> CheckedIn(steps, t, p, conflict)
  {
    hide LegalRun, Run, CheckedIn;
    HistoryIsTrace(steps, t, p);
    AnswerWasGiven(steps, t, p);
    if CheckedIn(steps, t, p, conflict) { AnswerIsKept(steps, t, p, conflict); }
  }

  // ---------------------------------------------------------------------
  // Main theorems over runs

  predicate Delivers(step: Step, t: Txid, p: Pid, i: Item) {
    step.Delivery? && step.t == t && step.p == p && step.item == i
  }

  /** An item of the log's way to disk and back. */
  predicate LogItem(i: Item) { i.Log? || i.Store? || i.Done? }

  lemma {:induction false} LogItemSeen(steps: seq<Step>, t: Txid, p: Pid, k: nat, i: Item)
    requires k < |steps| && Delivers(steps[k], t, p, i) && LogItem(i)
    ensures var o := Observe(steps, t, p);
      && (i.Log? ==> i.writes in o.logs) && (i.Store? ==> i.writes in o.stores)
      && (i.Done? ==> true in o.reports)
    decreases |steps|
  {
    var n := |steps| - 1;
    if k < n {
      assert steps[..n][k] == steps[k];
      LogItemSeen(steps[..n], t, p, k, i);
    }
  }

  /** A log item delivered in the run is on the record of its end. */
  lemma LogItemKept(steps: seq<Step>, t: Txid, p: Pid, k: nat, i: Item)
    requires LegalRun(START, steps) && k < |steps| && Delivers(steps[k], t, p, i) && LogItem(i)
    ensures Run(START, steps).Some? && Participates(Run(START, steps).value, t, p)
    ensures var h := Hist(Run(START, steps).value, t, p);
      && (i.Log? ==> i.writes in h.logs) && (i.Store? ==> i.writes in h.plays)
      && (i.Done? ==> true in h.reports)
  {
    hide LegalRun, Run, Observe;
    HistoryIsTrace(steps, t, p);
    LogItemSeen(steps, t, p, k, i);
  }

  /** Atomic commitment: in a run where the index of one participant answers the
      check of a transaction with a conflict, no participant ever sends the log of
      that transaction, stores it, or is told that it was stored, before or after. */
  lemma AtomicCommitment(steps: seq<Step>, t: Txid, p: Pid, q: Pid, k: nat, i: Item)
    requires LegalRun(START, steps) && CheckedIn(steps, t, p, true)
    ensures k < |steps| && LogItem(i) ==> !Delivers(steps[k], t, q, i)
    ensures Run(START, steps).Some?
    ensures var s := Run(START, steps).value;
      Participates(s, t, q) ==> Hist(s, t, q).logs == [] && Hist(s, t, q).plays == [] && true !in Hist(s, t, q).reports
  {
    hide LegalRun, Run, CheckedIn, Reachable;
    AnswerIsKept(steps, t, p, true);
    var s := Run(START, steps).value;
    ReachedBy(steps, s);
    if Participates(s, t, q) {
      ConflictBlocksLogs(s, t, p, q);
      LogIsReceived(s, t, q);
    }
    if k < |steps| && LogItem(i) && Delivers(steps[k], t, q, i) { LogItemKept(steps, t, q, k, i); }
  }

  /** In particular for ever: after an answer with a conflict, no continuation has
      any participant log the transaction or report its success. */
  lemma ConflictForever(first: seq<Step>, more: seq<Step>, t: Txid, p: Pid, q: Pid)
    requires LegalRun(START, first + more) && CheckedIn(first, t, p, true)
    ensures Run(START, first + more).Some?
    ensures var s := Run(START, first + more).value;
      Participates(s, t, q) ==> Hist(s, t, q).logs == [] && Hist(s, t, q).plays == [] && true !in Hist(s, t, q).reports
  {
    hide LegalRun, Run, Hist, Participates;
    var k :| 0 <= k < |first| && Checks(first[k], t, p, true);
    assert Checks((first + more)[k], t, p, true);
    AtomicCommitment(first + more, t, p, q, 0, Done);
  }

  lemma ReachedBy(steps: seq<Step>, s: Sys)
    requires LegalRun(START, steps) && Run(START, steps) == Some(s)
    ensures Reachable(s)
  {
  }

  /** Log fidelity: every kLog that is sent or delivered, every write to disk and
      every log handed to the log player is exactly what all kData of the run
      brought, in order, and success is reported only after that. */
  lemma LogFidelity(steps: seq<Step>, t: Txid, p: Pid, k: nat, i: Item)
    requires LegalRun(START, steps)
    ensures k < |steps| && Delivers(steps[k], t, p, i) && (i.Log? || i.Store?) ==> i.writes == Brought(steps, t, p)
    ensures Run(START, steps).Some?
    ensures var s, all := Run(START, steps).value, Brought(steps, t, p);
      Participates(s, t, p) ==>
        var h := Hist(s, t, p);
        && (h.logs == [] || h.logs == [all]) && (h.plays == [] || h.plays == [all])
        && (true in h.reports ==> h.plays == [all])
  {
    hide LegalRun, Run, Reachable, Observe;
    HistoryIsTrace(steps, t, p);
    var s := Run(START, steps).value;
    ReachedBy(steps, s);
    if Participates(s, t, p) { LogIsReceived(s, t, p); }
    if k < |steps| && Delivers(steps[k], t, p, i) && (i.Log? || i.Store?) { LogItemKept(steps, t, p, k, i); }
  }

  /** Every vote is the answer that the voter's own index gave before. */
  lemma VoteIsAnswer(steps: seq<Step>, t: Txid, p: Pid, k: nat, vote: bool)
    requires LegalRun(START, steps) && k < |steps| && Delivers(steps[k], t, p, Vote(vote))
    ensures CheckedIn(steps[..k], t, p, vote)
  {
    hide LegalRun, Run, Reachable, Inv, Good, View, CheckedIn, Next;
    var s := Midway(steps, k);
    LocalDef(s, t, p);
    InFlight(s, t, p, Vote(vote));
    PairAt(s, t, p);
    VoteGood(s.txs[t].local[p], Some(Vote(vote)), |s.txs[t].parts| > 1, View(s.txs[t], p));
    CheckedExactly(steps[..k], t, p, vote);
  }

  /** All of these participants were checked. */
  predicate AllChecked(steps: seq<Step>, t: Txid, parts: set<Pid>) {
    forall q :: q in parts ==> CheckedIn(steps, t, q, true) || CheckedIn(steps, t, q, false)
  }

  predicate AnyConflictIn(steps: seq<Step>, t: Txid, parts: set<Pid>) {
    exists q :: q in parts && CheckedIn(steps, t, q, true)
  }

  /** The GTM's answer in terms of the run: it exists exactly when all have voted,
      all of them had their checks answered, and it is a conflict exactly if one
      of these answers was. */
  lemma AnswerIsExact(steps: seq<Step>, t: Txid)
    requires LegalRun(START, steps) && Run(START, steps).Some? && t in Run(START, steps).value.txs
    requires |Run(START, steps).value.txs[t].parts| > 1
    ensures var tx := Run(START, steps).value.txs[t];
      && |tx.answers| <= 1 && (tx.answers != [] <==> |tx.votes| == |tx.parts|)
      && (tx.answers != [] ==>
            && Distinct(tx.answers[0].conns) && (forall p :: p in tx.parts <==> p in tx.answers[0].conns)
            && AllChecked(steps, t, tx.parts)
            && (tx.answers[0].isConflict <==> AnyConflictIn(steps, t, tx.parts)))
  {
    hide LegalRun, Run, Reachable, CheckedIn, Inv, TxInv, VotesOk, CountOk;
    var s := Run(START, steps).value;
    var tx := s.txs[t];
    ReachedBy(steps, s);
    AnswerOfChecks(s, t);
    ReachableInv(s);
    TxShape(s, t);
    if tx.answers != [] {
      forall q | q in tx.parts
        ensures CheckedIn(steps, t, q, true) || CheckedIn(steps, t, q, false)
        ensures tx.local[q].h.checked == Some(true) <==> CheckedIn(steps, t, q, true)
      {
        LocalDef(s, t, q);
        CheckedExactly(steps, t, q, true);
        CheckedExactly(steps, t, q, false);
        VoterChecked(s, t, q);
      }
    }
  }

  lemma VoterChecked(s: Sys, t: Txid, q: Pid)
    requires Inv(s) && Participates(s, t, q) && s.txs[t].answers != []
    ensures Hist(s, t, q).checked == Some(true) || Hist(s, t, q).checked == Some(false)
  {
    hide PairOk;
    TxShape(s, t);
    VoterOf(s.txs[t], q);
    var k :| 0 <= k < |s.txs[t].votes| && s.txs[t].votes[k].conn == q;
    assert VoteOf(s.txs[t].local, s.txs[t].votes[k]);
    if s.txs[t].votes[k].conflict { assert Hist(s, t, q).checked == Some(true); }
  }

  /** Every decision that reaches a participant was made after all checks of the
      transaction, and is a conflict exactly if one of them was answered so. */
  lemma DecisionIsExact(steps: seq<Step>, t: Txid, p: Pid, k: nat, i: Item)
    requires LegalRun(START, steps) && k < |steps| && Delivers(steps[k], t, p, i) && (i.Decide? || i.Solve?)
    ensures LegalRun(START, steps[..k]) && Run(START, steps[..k]).Some? && t in Run(START, steps[..k]).value.txs
    ensures var parts := Run(START, steps[..k]).value.txs[t].parts;
      AllChecked(steps[..k], t, parts) && (i.conflict <==> AnyConflictIn(steps[..k], t, parts))
  {
    hide LegalRun, Run, Reachable, Inv, Good, CheckedIn, Next;
    var s := Midway(steps, k);
    LocalDef(s, t, p);
    InFlight(s, t, p, i);
    PairAt(s, t, p);
    DecidedBy(s.txs[t].local[p], i, |s.txs[t].parts| > 1, View(s.txs[t], p));
    AnswerIsExact(steps[..k], t);
  }

  lemma DecidedBy(l: Local, i: Item, g: bool, v: GtmView)
    requires Good(l, Some(i), g, v) && (i.Decide? || i.Solve?)
    ensures g && v == Decided(i.conflict)
  {
  }

  /** The handshake of LSN and commit, from the steps: the LSN is asked for once,
      with the first data, and the check is run or waiting to run, once, exactly if
      commit and the log store's answer are in and the answer is positive or came
      second. */
  lemma Handshake(steps: seq<Step>, t: Txid, p: Pid)
    requires LegalRun(START, steps)
    ensures Run(START, steps).Some?
    ensures var o, x := Observe(steps, t, p), ItemAt(Run(START, steps).value, t, p);
      && o.asked + Pending(x, GetLsn) == (if o.data > 0 then 1 else 0)
      && o.checks + Pending(x, Check)
         == if o.committed && o.arrived.Some? && (o.arrived.value.lsn > 0 || o.arrived.value.afterCommit) then 1 else 0
  {
    hide LegalRun, Run, Reachable, Observe;
    HistoryIsTrace(steps, t, p);
    var s := Run(START, steps).value;
    ReachedBy(steps, s);
    if Participates(s, t, p) { HandshakeOnce(s, t, p); }
  }

  /** When a transaction has drained, every participant's check was answered, and
      all have reported the same outcome: success, with all that the kData of the
      run brought played, if no check was answered with a conflict, else failure. */
  lemma Completion(steps: seq<Step>, t: Txid, p: Pid)
    requires LegalRun(START, steps) && Run(START, steps).Some?
    requires var s := Run(START, steps).value;
      t in s.txs && Drained(s.txs[t]) && p in s.txs[t].parts
    ensures var s := Run(START, steps).value;
      && Participates(s, t, p)
      && var h := Hist(s, t, p);
         && (CheckedIn(steps, t, p, true) || CheckedIn(steps, t, p, false))
         && if AnyConflictIn(steps, t, s.txs[t].parts) then
              h.reports == if |s.txs[t].parts| > 1 && CheckedIn(steps, t, p, true) then [false, false] else [false]
            else h.reports == [true] && h.plays == [Brought(steps, t, p)] && h.frees == 1
  {
    hide LegalRun, Run, Reachable, CheckedIn, Inv, Drained, Observe, Good;
    var s := Run(START, steps).value;
    ReachedBy(steps, s);
    ReachableInv(s);
    TxShape(s, t);
    DrainedOutcome(s, t, p);
    HistoryIsTrace(steps, t, p);
    DrainedPair(s, t, p);
    DrainedCheckable(s.txs[t], p);
    QuietIsFinal(s.txs[t].local[p], |s.txs[t].parts| > 1, View(s.txs[t], p));
    forall q | q in s.txs[t].parts ensures s.txs[t].local[q].h.checked == Some(true) <==> CheckedIn(steps, t, q, true) {
      LocalDef(s, t, q);
      CheckedExactly(steps, t, q, true);
    }
    CheckedExactly(steps, t, p, true);
    CheckedExactly(steps, t, p, false);
  }
}

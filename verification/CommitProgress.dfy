/** The protocol comes to an end: a run delivers at most ten items for each
    participant, and when nothing of a transaction is in flight any more, every
    participant whose check could run has reported the common outcome. */
module CommitProgress {
  import opened Bytes
  import opened Participant
  import opened CommitProtocol
  import opened CommitSafety
  import Gtm

  // ---------------------------------------------------------------------
  // A bound on deliveries

  /** How many more deliveries a participant can take. */
  function Left(s: Local, x: Option<Item>, v: GtmView): nat {
    match x
    case Some(GetLsn) => 10
    case Some(LsnRequest) => 9
    case Some(LsnReply(_)) => 8
    case Some(Check) => 7
    case Some(Vote(_)) => 6
    case Some(Decide(_)) => 5
    case Some(Solve(_)) => 4
    case Some(Log(_)) => 3
    case Some(Store(_)) => 2
    case Some(Done) => 1
    case None =>
      if !s.conn then 10
      else if s.h.checked.None? then 7
      else if v == Counted then 5
      else 0
  }

  lemma DataKeeps(s: Local, x: Option<Item>, g: bool, rs: seq<Entry>, ws: seq<Entry>)
    requires Good(s, x, g, Unvoted) && !s.h.committed
    ensures var r := OnData(s, rs, ws);
      Left(r.s, if r.item.Some? then r.item else x, Unvoted) == Left(s, x, Unvoted)
  {
  }

  lemma CommitKeeps(s: Local, x: Option<Item>, g: bool)
    requires Good(s, x, g, Unvoted) && !s.h.committed && s.h.lsnRequests > 0
    ensures OnCommit(s, g).Some?
    ensures var r := OnCommit(s, g).value;
      Left(r.s, if r.item.Some? then r.item else x, Unvoted) == Left(s, x, Unvoted)
  {
  }

  lemma DeliverSpends(s: Local, x: Option<Item>, g: bool, v: GtmView, conflict: bool, lsn: nat)
    requires Good(s, x, g, v) && x.Some? && !x.value.Vote?
    ensures Deliver(s, x.value, conflict, lsn).Some?
    ensures var r := Deliver(s, x.value, conflict, lsn).value;
      Left(r.s, r.item, v) < Left(s, x, v)
  {
    DeliverGood(s, x, g, v, conflict, lsn);
  }

  /** The GTM's view bounds what is left. */
  lemma LeftByView(s: Local, x: Option<Item>, v: GtmView)
    requires Good(s, x, true, v)
    ensures match v
      case Unvoted => Left(s, x, v) >= 6
      case Counted => Left(s, x, v) == 5
      case Decided(_) => Left(s, x, v) <= 5
  {
  }

  ghost function LeftOf(tx: Tx, p: Pid): nat
    requires p in tx.local && p in tx.flight
  {
    Left(tx.local[p], Only(tx.flight[p]), View(tx, p))
  }

  ghost function Budget(s: Sys, t: Txid, p: Pid): nat {
    if Participates(s, t, p) then LeftOf(s.txs[t], p) else 10
  }

  predicate Spends(step: Step, t: Txid, p: Pid) {
    step.Delivery? && step.t == t && step.p == p
  }

  /** A participant's own step costs what it costs locally. */
  lemma PutLeft(tx: Tx, p: Pid, l: Local, x: Option<Item>, q: Pid)
    requires q in tx.local && q in tx.flight
    ensures LeftOf(Put(tx, p, l, Emit(x)), q) == if q == p then Left(l, x, View(tx, p)) else LeftOf(tx, q)
  {
    hide Left;
    OnlyEmit(x);
  }

  lemma DataBudget(g: Gtm.State, t: Txid, tx: Tx, p: Pid, rs: seq<Entry>, ws: seq<Entry>, q: Pid)
    requires TxInv(g, t, tx) && p in tx.parts && !tx.local[p].h.committed && q in tx.parts
    ensures var r := OnData(tx.local[p], rs, ws);
      LeftOf(Put(tx, p, r.s, tx.flight[p] + Emit(r.item)), q) == LeftOf(tx, q)
  {
    hide Good, CountOk, VotesOk, Only, Emit, OnData, View, Left, LeftOf;
    var l, x, r := tx.local[p], Only(tx.flight[p]), OnData(tx.local[p], rs, ws);
    assert PairOk(tx, p, View(tx, p));
    UncommittedUnvoted(l, x, |tx.parts| > 1, View(tx, p));
    DataGood(l, x, |tx.parts| > 1, rs, ws);
    DataKeeps(l, x, |tx.parts| > 1, rs, ws);
    BagAdd(x, r.item);
    PutLeft(tx, p, r.s, if r.item.Some? then r.item else x, q);
    LeftOfDef(tx, p);
  }

  lemma CommitBudget(g: Gtm.State, t: Txid, tx: Tx, p: Pid, q: Pid)
    requires TxInv(g, t, tx) && p in tx.parts && !tx.local[p].h.committed && tx.local[p].h.lsnRequests > 0 && q in tx.parts
    ensures var r := OnCommit(tx.local[p], |tx.parts| > 1);
      r.Some? && LeftOf(Put(tx, p, r.value.s, tx.flight[p] + Emit(r.value.item)), q) == LeftOf(tx, q)
  {
    hide Good, CountOk, VotesOk, Only, Emit, OnCommit, View, Left, LeftOf;
    var l, x := tx.local[p], Only(tx.flight[p]);
    assert PairOk(tx, p, View(tx, p));
    UncommittedUnvoted(l, x, |tx.parts| > 1, View(tx, p));
    CommitGood(l, x, |tx.parts| > 1);
    CommitKeeps(l, x, |tx.parts| > 1);
    var r := OnCommit(l, |tx.parts| > 1).value;
    BagAdd(x, r.item);
    PutLeft(tx, p, r.s, if r.item.Some? then r.item else x, q);
    LeftOfDef(tx, p);
  }

  lemma DeliveryBudget(g: Gtm.State, t: Txid, tx: Tx, p: Pid, i: Item, conflict: bool, lsn: nat, q: Pid)
    requires TxInv(g, t, tx) && p in tx.parts && i in tx.flight[p] && !i.Vote? && q in tx.parts
    ensures var r := Deliver(tx.local[p], i, conflict, lsn);
      && r.Some?
      && LeftOf(Put(tx, p, r.value.s, tx.flight[p] - multiset{i} + Emit(r.value.item)), q)
         <= LeftOf(tx, q) - if q == p then 1 else 0
  {
    hide Good, CountOk, VotesOk, Only, Emit, Deliver, View, Left, LeftOf;
    var l, x := tx.local[p], Only(tx.flight[p]);
    assert PairOk(tx, p, View(tx, p));
    BagOf(tx, p, View(tx, p), i);
    DeliverSpends(l, x, |tx.parts| > 1, View(tx, p), conflict, lsn);
    var r := Deliver(l, i, conflict, lsn).value;
    BagSwap(i, r.item);
    PutLeft(tx, p, r.s, r.item, q);
    LeftOfDef(tx, p);
  }

  lemma LeftOfDef(tx: Tx, p: Pid)
    requires p in tx.local && p in tx.flight
    ensures LeftOf(tx, p) == Left(tx.local[p], Only(tx.flight[p]), View(tx, p))
  {
    hide Left, Only, View;
  }

  /** Each vote moves a participant's view forward, or leaves it alone. */
  lemma VoteMoves(g: Gtm.State, t: Txid, tx: Tx, p: Pid, vote: bool, q: Pid)
    requires TxInv(g, t, tx) && p in tx.parts && Only(tx.flight[p]) == Some(Vote(vote)) && q in tx.parts
    ensures VoteStep(g, t, tx, p, vote).Some?
    ensures var tx' := VoteStep(g, t, tx, p, vote).value.1;
      && q in tx'.flight
      && if View(tx', q) == View(tx, q) then q != p && tx'.flight[q] == tx.flight[q]
         else View(tx, q).Unvoted? || (View(tx, q).Counted? && View(tx', q).Decided?)
  {
    hide PairOk, Only, SendAll, Gtm.Judge, Gtm.Conns, VotesOk, Gtm.Counted, VoteOf, Emit;
    VoteInFlight(g, t, tx, p, vote);
    VoteOk(g, t, tx, p, vote);
    Gtm.AddVote(tx.votes, Gtm.Vote(p, vote));
    var (_, a) := Gtm.Judge(g, t, p, vote);
    var tx' := VoteStep(g, t, tx, p, vote).value.1;
    assert tx'.votes == tx.votes + [Gtm.Vote(p, vote)];
    assert a.None? ==> tx'.answers == [] && tx'.flight == Voted(tx, p, vote).flight;
    assert p in Gtm.Conns(tx'.votes);
  }

  lemma MoveBudget(tx: Tx, tx': Tx, q: Pid)
    requires |tx.parts| > 1 && tx'.parts == tx.parts && q in tx.local && q in tx.flight && q in tx'.flight
    requires tx'.local == tx.local && PairOk(tx, q, View(tx, q)) && PairOk(tx', q, View(tx', q))
    requires if View(tx', q) == View(tx, q) then tx'.flight[q] == tx.flight[q]
      else View(tx, q).Unvoted? || (View(tx, q).Counted? && View(tx', q).Decided?)
    ensures LeftOf(tx', q) <= LeftOf(tx, q)
    ensures View(tx, q).Unvoted? && !View(tx', q).Unvoted? ==> LeftOf(tx', q) < LeftOf(tx, q)
  {
    hide Good, Only, Left, View, Emit;
    LeftByView(tx.local[q], Only(tx.flight[q]), View(tx, q));
    LeftByView(tx'.local[q], Only(tx'.flight[q]), View(tx', q));
  }

  lemma VoteBudget(g: Gtm.State, t: Txid, tx: Tx, p: Pid, vote: bool, q: Pid)
    requires TxInv(g, t, tx) && p in tx.parts && Only(tx.flight[p]) == Some(Vote(vote)) && q in tx.parts
    ensures var r := VoteStep(g, t, tx, p, vote);
      && r.Some? && q in r.value.1.local && q in r.value.1.flight
      && LeftOf(r.value.1, q) <= LeftOf(tx, q) - if q == p then 1 else 0
  {
    hide PairOk, CountOk, VotesOk, Only, VoteStep, LeftOf, Gtm.Conns, VoteOf, Emit, Good;
    VoteInFlight(g, t, tx, p, vote);
    VoteOk(g, t, tx, p, vote);
    VoteMoves(g, t, tx, p, vote, q);
    MoveBudget(tx, VoteStep(g, t, tx, p, vote).value.1, q);
  }

  lemma StepBudget(s: Sys, step: Step, t: Txid, q: Pid)
    requires Inv(s) && Legal(s, step) && Next(s, step).Some?
    ensures Budget(Next(s, step).value, t, q) <= Budget(s, t, q) - if Spends(step, t, q) then 1 else 0
  {
    hide TxInv, VoteStep, Emit, Deliver, OnData, OnCommit, LeftOf;
    match step
    case Begin(parts) =>
      if t == s.gtm.txid && q in parts { NewTxBudget(parts, q); }
    case Data(u, p, rs, ws) =>
      TxShape(s, u);
      if u == t && q in s.txs[t].parts { DataBudget(s.gtm, t, s.txs[t], p, rs, ws, q); }
    case Commit(u, p) =>
      TxShape(s, u);
      if u == t && q in s.txs[t].parts { CommitBudget(s.gtm, t, s.txs[t], p, q); }
    case Delivery(u, p, i, conflict, lsn) =>
      if u == t { DeliveryStepBudget(s, step, q); }
  }

  lemma NewTxBudget(parts: set<Pid>, q: Pid)
    requires q in parts
    ensures LeftOf(NewTx(parts), q) == 10
  {
    OnlyEmit(None);
  }

  lemma DeliveryStepBudget(s: Sys, step: Step, q: Pid)
    requires Inv(s) && step.Delivery? && Legal(s, step) && Next(s, step).Some?
    ensures Budget(Next(s, step).value, step.t, q) <= Budget(s, step.t, q) - if step.p == q then 1 else 0
  {
    hide PairOk, VoteStep, Emit, Deliver, LeftOf, VotesOk, CountOk, View;
    var t, p, tx := step.t, step.p, s.txs[step.t];
    TxShape(s, t);
    if step.item.Vote? {
      BagOf(tx, p, View(tx, p), step.item);
      VoteOk(s.gtm, t, tx, p, step.item.conflict);
      if q in tx.parts { VoteBudget(s.gtm, t, tx, p, step.item.conflict, q); }
    } else {
      if q in tx.parts { DeliveryBudget(s.gtm, t, tx, p, step.item, step.conflict, step.lsn, q); }
    }
  }

  function Deliveries(steps: seq<Step>, t: Txid, p: Pid): nat {
    if steps == [] then 0 else (if Spends(steps[0], t, p) then 1 else 0) + Deliveries(steps[1..], t, p)
  }

  lemma {:induction false} DeliveriesWithin(s: Sys, steps: seq<Step>, t: Txid, p: Pid)
    requires Inv(s) && LegalRun(s, steps)
    ensures Deliveries(steps, t, p) <= Budget(s, t, p)
    decreases |steps|
  {
    hide Inv, Next, Legal, Budget, Spends;
    if steps != [] {
      NextOk(s, steps[0]);
      StepBudget(s, steps[0], t, p);
      DeliveriesWithin(Next(s, steps[0]).value, steps[1..], t, p);
    }
  }

  /** No run, however long, delivers more than ten items for a participant of
      a transaction. */
  lemma AtMostTenDeliveries(steps: seq<Step>, t: Txid, p: Pid)
    requires LegalRun(START, steps)
    ensures Deliveries(steps, t, p) <= 10
  {
    hide LegalRun, Deliveries;
    StartOk();
    DeliveriesWithin(START, steps, t, p);
  }

  // ---------------------------------------------------------------------
  // The end

  /** Nothing in flight, and every participant's check could run. */
  predicate Drained(tx: Tx) {
    forall p :: p in tx.parts ==>
      p in tx.local && p in tx.flight && tx.flight[p] == multiset{} && Checkable(tx.local[p].h)
  }

  predicate FoundConflict(tx: Tx) {
    exists p :: p in tx.local && tx.local[p].h.checked == Some(true)
  }

  lemma DrainedPair(s: Sys, t: Txid, p: Pid)
    requires Reachable(s) && t in s.txs && Drained(s.txs[t]) && p in s.txs[t].parts
    ensures Participates(s, t, p) && Good(s.txs[t].local[p], None, |s.txs[t].parts| > 1, View(s.txs[t], p))
  {
    hide Reachable, Good, TxInv, View;
    var x := ReachablePair(s, t, p);
  }

  lemma DrainedAnswered(s: Sys, t: Txid)
    requires Reachable(s) && t in s.txs && Drained(s.txs[t]) && |s.txs[t].parts| > 1
    ensures s.txs[t].answers != []
  {
    hide Reachable, Good, Drained, PairOk;
    var tx := s.txs[t];
    ReachableInv(s);
    TxShape(s, t);
    if tx.answers == [] {
      forall p | p in tx.parts ensures p in Gtm.Conns(tx.votes) {
        DrainedPair(s, t, p);
        DrainedCheckable(tx, p);
        QuietIsFinal(tx.local[p], true, View(tx, p));
      }
      CoverCard(Gtm.Conns(tx.votes), tx.parts);
    }
  }

  lemma DrainedCheckable(tx: Tx, p: Pid)
    requires Drained(tx) && p in tx.parts
    ensures p in tx.local && Checkable(tx.local[p].h)
  {
  }

  lemma CoverCard(s: seq<Pid>, all: set<Pid>)
    requires forall p :: p in all ==> p in s
    ensures |all| <= |s|
    decreases |s|
  {
    if s == [] {
      assert all == {};
    } else {
      CoverCard(s[1..], all - {s[0]});
      assert all <= (all - {s[0]}) + {s[0]};
      CardLe(all, (all - {s[0]}) + {s[0]});
    }
  }

  /** When a transaction has drained, all its participants have reported the
      same outcome: success, with the log played, if no check found a conflict,
      and failure otherwise. */
  lemma DrainedOutcome(s: Sys, t: Txid, p: Pid)
    requires Reachable(s) && t in s.txs && Drained(s.txs[t]) && p in s.txs[t].parts
    ensures Participates(s, t, p)
    ensures var h := Hist(s, t, p);
      if FoundConflict(s.txs[t]) then
        h.reports == if |s.txs[t].parts| > 1 && h.checked == Some(true) then [false, false] else [false]
      else h.reports == [true] && h.plays == [h.received] && h.frees == 1
  {
    hide Reachable, Good, Inv, TxInv, Drained, Gtm.Conns;
    var tx, g := s.txs[t], |s.txs[t].parts| > 1;
    DrainedPair(s, t, p);
    DrainedCheckable(tx, p);
    QuietIsFinal(tx.local[p], g, View(tx, p));
    if g {
      DrainedAnswered(s, t);
      AnswerOfChecks(s, t);
    } else {
      SoleConflict(s, t, p);
    }
  }

  lemma SoleConflict(s: Sys, t: Txid, p: Pid)
    requires Reachable(s) && Participates(s, t, p) && |s.txs[t].parts| <= 1
    ensures FoundConflict(s.txs[t]) <==> Hist(s, t, p).checked == Some(true)
  {
    hide Reachable;
    ReachableInv(s);
    TxShape(s, t);
    if FoundConflict(s.txs[t]) {
      var q :| q in s.txs[t].local && s.txs[t].local[q].h.checked == Some(true);
      Alone(s.txs[t].parts, p, q);
    }
  }
}

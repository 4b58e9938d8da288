/** What holds in every state that any legal run of the commit protocol can
    reach, whatever the order of delivery and the answers of the local checks. */
module CommitSafety {
  import opened Bytes
  import opened Participant
  import opened CommitProtocol
  import Gtm

  predicate LegalRun(s: Sys, steps: seq<Step>)
    decreases |steps|
  {
    steps == [] || (Legal(s, steps[0]) && (Next(s, steps[0]).Some? ==> LegalRun(Next(s, steps[0]).value, steps[1..])))
  }

  /** None if some handler faulted. */
  function Run(s: Sys, steps: seq<Step>): Option<Sys>
    requires LegalRun(s, steps)
    decreases |steps|
  {
    if steps == [] then Some(s) else
    var s' :- Next(s, steps[0]);
    Run(s', steps[1..])
  }

  ghost predicate Reachable(s: Sys) {
    exists steps :: LegalRun(START, steps) && Run(START, steps) == Some(s)
  }

  predicate Participates(s: Sys, t: Txid, p: Pid) {
    t in s.txs && p in s.txs[t].parts && p in s.txs[t].local && p in s.txs[t].flight
  }

  /** The history of one participant in one transaction. */
  function Hist(s: Sys, t: Txid, p: Pid): History
    requires Participates(s, t, p)
  {
    s.txs[t].local[p].h
  }

  // ---------------------------------------------------------------------
  // No handler of any run faults

  lemma StartOk()
    ensures Inv(START)
  {
  }

  lemma {:induction false} RunOk(s: Sys, steps: seq<Step>)
    requires Inv(s) && LegalRun(s, steps)
    ensures Run(s, steps).Some? && Inv(Run(s, steps).value)
    decreases |steps|
  {
    hide Inv, Next, Legal;
    if steps != [] {
      NextOk(s, steps[0]);
      RunOk(Next(s, steps[0]).value, steps[1..]);
    }
  }

  /** Every map entry that a handler dereferences is there. */
  lemma NoFault(steps: seq<Step>)
    requires LegalRun(START, steps)
    ensures Run(START, steps).Some?
  {
    hide Next, Legal;
    StartOk();
    RunOk(START, steps);
  }

  lemma ReachableInv(s: Sys)
    requires Reachable(s)
    ensures Inv(s)
  {
    hide Next, Legal, Run, LegalRun;
    var steps :| LegalRun(START, steps) && Run(START, steps) == Some(s);
    StartOk();
    RunOk(START, steps);
  }

  /** The facts about one participant that the theorems use. */
  lemma ReachablePair(s: Sys, t: Txid, p: Pid) returns (x: Option<Item>)
    requires Reachable(s) && t in s.txs && p in s.txs[t].parts
    ensures Participates(s, t, p) && TxInv(s.gtm, t, s.txs[t])
    ensures Good(s.txs[t].local[p], x, |s.txs[t].parts| > 1, View(s.txs[t], p))
    ensures s.txs[t].flight[p] == Emit(x)
  {
    hide Reachable, Good, View, Only, VotesOk, CountOk;
    ReachableInv(s);
    TxShape(s, t);
    assert PairOk(s.txs[t], p, View(s.txs[t], p));
    x := Only(s.txs[t].flight[p]);
  }

  // ---------------------------------------------------------------------
  // The GTM's answer

  lemma VoterOf(tx: Tx, q: Pid)
    requires Shaped(tx) && VotesOk(tx) && |tx.votes| == |tx.parts| && q in tx.parts
    ensures q in Gtm.Conns(tx.votes) && exists k :: 0 <= k < |tx.votes| && tx.votes[k].conn == q
  {
    hide Distinct;
    ConnsIn(tx);
    DistinctCard(Gtm.Conns(tx.votes), tx.parts);
    var k :| 0 <= k < |tx.votes| && Gtm.Conns(tx.votes)[k] == q;
    assert tx.votes[k].conn == q;
  }

  /** The GTM answers a transaction at most once, with the last of its votes,
      to every participant once, and the answer is a conflict exactly when some
      participant found one; until then votes in and votes missing make n. */
  lemma AnswerOfChecks(s: Sys, t: Txid)
    requires Reachable(s) && t in s.txs && |s.txs[t].parts| > 1
    ensures var tx := s.txs[t];
      && |tx.answers| <= 1 && (tx.answers != [] <==> |tx.votes| == |tx.parts|)
      && (tx.answers == [] ==> t in s.gtm.table && s.gtm.table[t].serverNum + |tx.votes| == |tx.parts|)
      && (tx.answers != [] ==>
            && t !in s.gtm.table
            && Distinct(tx.answers[0].conns) && (forall p :: p in tx.parts <==> p in tx.answers[0].conns)
            && (tx.answers[0].isConflict <==>
                  exists p :: p in tx.local && tx.local[p].h.checked == Some(true)))
  {
    hide Reachable;
    ReachableInv(s);
    TxShape(s, t);
    var tx := s.txs[t];
    if tx.answers != [] {
      ConnsIn(tx);
      forall p | p in tx.parts ensures p in tx.answers[0].conns { VoterOf(tx, p); }
      if tx.answers[0].isConflict {
        var k :| 0 <= k < |tx.votes| && tx.votes[k].conflict;
        assert VoteOf(tx.local, tx.votes[k]);
      }
      forall p | p in tx.local && tx.local[p].h.checked == Some(true) ensures tx.answers[0].isConflict {
        ConflictDecides(tx, p);
      }
    }
  }

  lemma ConflictDecides(tx: Tx, p: Pid)
    requires Shaped(tx) && VotesOk(tx) && |tx.votes| == |tx.parts|
    requires p in tx.local
    ensures tx.local[p].h.checked == Some(true) ==> Gtm.AnyConflict(tx.votes)
  {
    VoterOf(tx, p);
    var k :| 0 <= k < |tx.votes| && tx.votes[k].conn == p;
    assert VoteOf(tx.local, tx.votes[k]);
  }

  /** Once the GTM has decided "no conflict", nobody found one. */
  lemma CleanDecision(s: Sys, t: Txid, p: Pid)
    requires Reachable(s) && Participates(s, t, p) && |s.txs[t].parts| > 1
    requires View(s.txs[t], p) == Decided(false)
    ensures Hist(s, t, p).checked != Some(true)
  {
    hide Reachable, Gtm.AnyConflict, Gtm.Conns, PairOk, Good, Inv, VotesOk, Gtm.Counted;
    ReachableInv(s);
    TxShape(s, t);
    ConflictDecides(s.txs[t], p);
  }

  lemma Alone(parts: set<Pid>, p: Pid, q: Pid)
    requires |parts| <= 1 && p in parts && q in parts
    ensures p == q
  {
    if p != q {
      assert {p, q} <= parts;
      CardLe({p, q}, parts);
    }
  }

  lemma CardLe(a: set<Pid>, b: set<Pid>)
    requires a <= b
    ensures |a| <= |b|
  {
    if a != {} {
      var x :| x in a;
      CardLe(a - {x}, b - {x});
    }
  }

  // ---------------------------------------------------------------------
  // Main theorems

  /** If one participant found a conflict, no participant
      sends the log of that transaction or has it played. */
  lemma ConflictBlocksLogs(s: Sys, t: Txid, p: Pid, q: Pid)
    requires Reachable(s) && Participates(s, t, p) && Participates(s, t, q)
    requires Hist(s, t, p).checked == Some(true)
    ensures Hist(s, t, q).logs == [] && Hist(s, t, q).plays == []
  {
    hide Reachable, Good, TxInv, Emit;
    var x := ReachablePair(s, t, q);
    var g, v := |s.txs[t].parts| > 1, View(s.txs[t], q);
    LogsAreReceived(s.txs[t].local[q], x, g, v);
    if Hist(s, t, q).logs != [] {
      if g {
        CleanDecision(s, t, p);
      } else {
        Alone(s.txs[t].parts, p, q);
      }
    }
  }

  /** Nobody reports success where anybody reports failure. */
  lemma ConsistentOutcome(s: Sys, t: Txid, p: Pid, q: Pid)
    requires Reachable(s) && Participates(s, t, p) && Participates(s, t, q)
    ensures !(true in Hist(s, t, p).reports && false in Hist(s, t, q).reports)
  {
    hide Reachable, Good, TxInv, Emit;
    if true in Hist(s, t, p).reports && false in Hist(s, t, q).reports {
      var x := ReachablePair(s, t, p);
      var y := ReachablePair(s, t, q);
      var g := |s.txs[t].parts| > 1;
      ReportsAreSound(s.txs[t].local[p], x, g, View(s.txs[t], p));
      LogsAreReceived(s.txs[t].local[p], x, g, View(s.txs[t], p));
      ReportsAreSound(s.txs[t].local[q], y, g, View(s.txs[t], q));
      if g {
        CleanDecision(s, t, q);
      } else {
        Alone(s.txs[t].parts, p, q);
      }
    }
  }

  /** A clean participant reports at most once, a conflicting one of a global
      transaction at most twice; a transaction is freed at most once, and then
      no table of the participant still holds it. */
  lemma ReportsAndFrees(s: Sys, t: Txid, p: Pid)
    requires Reachable(s) && Participates(s, t, p)
    ensures var l := s.txs[t].local[p];
      && |l.h.reports| <= (if |s.txs[t].parts| > 1 && l.h.checked == Some(true) then 2 else 1)
      && l.h.frees <= 1 && (l.h.frees == 1 ==> l.trans.None? && l.owned.None?)
  {
    hide Reachable, Good, TxInv, Emit;
    var x := ReachablePair(s, t, p);
    ReportsAreSound(s.txs[t].local[p], x, |s.txs[t].parts| > 1, View(s.txs[t], p));
  }

  /** What is logged, and what is played to the replicas, is what was received,
      whole and in order; success is reported only after that. */
  lemma LogIsReceived(s: Sys, t: Txid, p: Pid)
    requires Reachable(s) && Participates(s, t, p)
    ensures var h := Hist(s, t, p);
      && (h.logs == [] || h.logs == [h.received]) && (h.plays == [] || h.plays == [h.received])
      && (true in h.reports ==> h.plays == [h.received])
  {
    hide Reachable, Good, TxInv, Emit;
    var x := ReachablePair(s, t, p);
    LogsAreReceived(s.txs[t].local[p], x, |s.txs[t].parts| > 1, View(s.txs[t], p));
    ReportsAreSound(s.txs[t].local[p], x, |s.txs[t].parts| > 1, View(s.txs[t], p));
  }

  /** The handshake of LSN and commit: the LSN is asked for once, and the check
      is enqueued once if both are in and the LSN is positive or came second,
      and never otherwise. */
  lemma HandshakeOnce(s: Sys, t: Txid, p: Pid)
    requires Reachable(s) && Participates(s, t, p)
    ensures var h := Hist(s, t, p);
      && h.lsnRequests == (if s.txs[t].local[p].conn then 1 else 0)
      && h.checksQueued == if Checkable(h) then 1 else 0
  {
    hide Reachable, Good, TxInv, Emit;
    var x := ReachablePair(s, t, p);
    HandshakeExact(s.txs[t].local[p], x, |s.txs[t].parts| > 1, View(s.txs[t], p));
  }

  // ---------------------------------------------------------------------
  // What has happened stays

  lemma HistoryStays(s: Sys, step: Step, t: Txid, p: Pid)
    requires Inv(s) && Legal(s, step) && Participates(s, t, p)
    ensures Next(s, step).Some? && Participates(Next(s, step).value, t, p)
    ensures var h, h' := Hist(s, t, p), Hist(Next(s, step).value, t, p);
      (h.lsnIn.Some? ==> h'.lsnIn == h.lsnIn) && (h.checked.Some? ==> h'.checked == h.checked)
  {
    hide TxInv, VoteStep, Emit, Deliver, NewTx;
    NextOk(s, step);
    TxShape(s, t);
    TxShape(Next(s, step).value, t);
    if step.Delivery? && step.t == t {
      if step.item.Vote? {
        VoteDelivered(s, t, step.p, step.item.conflict);
      } else {
        DeliveryOk(s.gtm, t, s.txs[t], step.p, step.item, step.conflict, step.lsn);
      }
    }
  }

  lemma {:induction false} CheckedStays(s: Sys, steps: seq<Step>, t: Txid, p: Pid)
    requires Inv(s) && LegalRun(s, steps) && Participates(s, t, p) && Hist(s, t, p).checked.Some?
    ensures Run(s, steps).Some? && Inv(Run(s, steps).value) && Participates(Run(s, steps).value, t, p)
    ensures Hist(Run(s, steps).value, t, p).checked == Hist(s, t, p).checked
    decreases |steps|
  {
    hide Next, Legal, Inv;
    if steps != [] {
      NextOk(s, steps[0]);
      HistoryStays(s, steps[0], t, p);
      CheckedStays(Next(s, steps[0]).value, steps[1..], t, p);
    }
  }

  lemma {:induction false} RunConcat(s: Sys, a: seq<Step>, b: seq<Step>)
    requires LegalRun(s, a) && Run(s, a).Some? && LegalRun(Run(s, a).value, b)
    ensures LegalRun(s, a + b) && Run(s, a + b) == Run(Run(s, a).value, b)
    decreases |a|
  {
    hide Next, Legal;
    if a == [] {
      assert a + b == b;
    } else {
      assert (a + b)[1..] == a[1..] + b;
      RunConcat(Next(s, a[0]).value, a[1..], b);
    }
  }

  lemma StillReachable(s: Sys, steps: seq<Step>, s': Sys)
    requires Reachable(s) && LegalRun(s, steps) && Run(s, steps) == Some(s')
    ensures Reachable(s')
  {
    hide LegalRun, Run;
    var first :| LegalRun(START, first) && Run(START, first) == Some(s);
    RunConcat(START, first, steps);
    assert LegalRun(START, first + steps) && Run(START, first + steps) == Some(s');
  }

  // ---------------------------------------------------------------------
  // LSN 0 before the commit

  /** If LSN 0 came before the commit, no continuation ever checks. */
  lemma {:induction false} ZeroLsnNeverChecks(s: Sys, steps: seq<Step>, t: Txid, p: Pid)
    requires Inv(s) && LegalRun(s, steps) && Participates(s, t, p)
    requires Hist(s, t, p).lsnIn == Some(Arrival(0, false))
    ensures Run(s, steps).Some? && Participates(Run(s, steps).value, t, p)
    ensures Hist(Run(s, steps).value, t, p).checksQueued == 0
    decreases |steps|
  {
    hide Next, Legal, Good, Inv;
    if steps == [] {
      assert TxInv(s.gtm, t, s.txs[t]) by { TxShape(s, t); }
      assert PairOk(s.txs[t], p, View(s.txs[t], p));
      HandshakeExact(s.txs[t].local[p], Only(s.txs[t].flight[p]), |s.txs[t].parts| > 1, View(s.txs[t], p));
    } else {
      NextOk(s, steps[0]);
      HistoryStays(s, steps[0], t, p);
      ZeroLsnNeverChecks(Next(s, steps[0]).value, steps[1..], t, p);
    }
  }

  /** A system with one transaction of one participant, in state l with x in
      flight. */
  function Solo(l: Local, x: Option<Item>): Sys {
    Sys(Gtm.State(map[], 1), map[0 := Tx({5}, map[5 := l], map[5 := Emit(x)], [], [])])
  }

  lemma SoloBegin()
    ensures Next(START, Begin({5})) == Some(Solo(EMPTY, None))
  {
    var tx := NewTx({5});
    assert tx.local == map[5 := EMPTY] && tx.flight == map[5 := Emit(None)];
    assert |tx.parts| == 1;
  }

  lemma SoloData()
    ensures Legal(Solo(EMPTY, None), Data(0, 5, [], []))
    ensures var r := OnData(EMPTY, [], []);
      Next(Solo(EMPTY, None), Data(0, 5, [], [])) == Some(Solo(r.s, r.item))
  {
    hide OnData;
    var r := OnData(EMPTY, [], []);
    BagAdd(None, r.item);
    SoloPut(EMPTY, None, r.s, r.item);
  }

  lemma SoloPut(l: Local, x: Option<Item>, l': Local, x': Option<Item>)
    ensures With(Solo(l, x), 0, Put(Solo(l, x).txs[0], 5, l', Emit(x'))) == Solo(l', x')
  {
    hide Emit;
    assert map[5 := l][5 := l'] == map[5 := l'];
    assert map[5 := Emit(x)][5 := Emit(x')] == map[5 := Emit(x')];
    var tx, tx' := Solo(l, x).txs[0], Solo(l', x').txs[0];
    assert map[0 := tx][0 := tx'] == map[0 := tx'];
  }

  lemma SoloDeliver(l: Local, i: Item)
    requires !i.Vote? && Deliver(l, i, false, 0).Some?
    ensures Legal(Solo(l, Some(i)), Delivery(0, 5, i, false, 0))
    ensures var r := Deliver(l, i, false, 0).value;
      Next(Solo(l, Some(i)), Delivery(0, 5, i, false, 0)) == Some(Solo(r.s, r.item))
  {
    hide Deliver;
    var r := Deliver(l, i, false, 0).value;
    BagSwap(i, r.item);
    SoloPut(l, Some(i), r.s, r.item);
  }

  lemma RunFirst(s: Sys, step: Step, s': Sys, rest: seq<Step>)
    requires Legal(s, step) && Next(s, step) == Some(s') && LegalRun(s', rest)
    ensures LegalRun(s, [step] + rest) && Run(s, [step] + rest) == Run(s', rest)
  {
    hide Next, Legal;
    assert ([step] + rest)[1..] == rest;
  }

  /** It happens: the log store answers the request of the first kData with
      LSN 0 before the commit. */
  lemma ZeroLsnHappens()
    ensures var steps := [Begin({5})] + ([Data(0, 5, [], [])] + ([Delivery(0, 5, GetLsn, false, 0)]
        + ([Delivery(0, 5, LsnRequest, false, 0)] + ([Delivery(0, 5, LsnReply(0), false, 0)] + []))));
      && LegalRun(START, steps) && Run(START, steps).Some?
      && var s := Run(START, steps).value;
         Participates(s, 0, 5) && Hist(s, 0, 5).lsnIn == Some(Arrival(0, false))
  {
    hide Solo, Next, Legal, LegalRun, Run, START;
    var l1 := OnData(EMPTY, [], []).s;
    var l2 := OnLsn(l1, 0).value.s;
    SoloBegin();
    SoloData();
    SoloDeliver(l1, GetLsn);
    SoloDeliver(l1, LsnRequest);
    SoloDeliver(l1, LsnReply(0));
    SoloEnd(l2, None);
    RunFirst(Solo(l1, Some(LsnReply(0))), Delivery(0, 5, LsnReply(0), false, 0), Solo(l2, None), []);
    RunFirst(Solo(l1, Some(LsnRequest)), Delivery(0, 5, LsnRequest, false, 0), Solo(l1, Some(LsnReply(0))),
      [Delivery(0, 5, LsnReply(0), false, 0)] + []);
    RunFirst(Solo(l1, Some(GetLsn)), Delivery(0, 5, GetLsn, false, 0), Solo(l1, Some(LsnRequest)),
      [Delivery(0, 5, LsnRequest, false, 0)] + ([Delivery(0, 5, LsnReply(0), false, 0)] + []));
    RunFirst(Solo(EMPTY, None), Data(0, 5, [], []), Solo(l1, Some(GetLsn)),
      [Delivery(0, 5, GetLsn, false, 0)] + ([Delivery(0, 5, LsnRequest, false, 0)] + ([Delivery(0, 5, LsnReply(0), false, 0)] + [])));
    BeginLegal();
    RunFirst(START, Begin({5}), Solo(EMPTY, None),
      [Data(0, 5, [], [])] + ([Delivery(0, 5, GetLsn, false, 0)]
        + ([Delivery(0, 5, LsnRequest, false, 0)] + ([Delivery(0, 5, LsnReply(0), false, 0)] + []))));
  }

  lemma BeginLegal()
    ensures Legal(START, Begin({5}))
  {
  }

  lemma SoloEnd(l: Local, x: Option<Item>)
    ensures LegalRun(Solo(l, x), []) && Run(Solo(l, x), []) == Some(Solo(l, x))
    ensures Participates(Solo(l, x), 0, 5) && Hist(Solo(l, x), 0, 5) == l.h
  {
  }
}

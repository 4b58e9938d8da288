/** Every live transaction finishes: from any reachable state in which all its
    participants have been asked to commit, and none has lost its check to LSN 0,
    delivering what is in flight, in any order and with any answers of the
    conflict indexes and log stores, ends with the same outcome reported by all. */
module CommitTermination {
  import opened Bytes
  import opened Participant
  import opened CommitProtocol
  import opened CommitSafety
  import opened CommitProgress
  import Gtm

  /** Committed, and not with LSN 0 delivered before. */
  predicate Live(h: History) {
    h.committed && h.lsnIn != Some(Arrival(0, false))
  }

  /** A delivery keeps a participant live. */
  lemma DeliverLive(s: Local, x: Option<Item>, g: bool, v: GtmView, conflict: bool, lsn: nat)
    requires Good(s, x, g, v) && x.Some? && !x.value.Vote? && Live(s.h)
    ensures Deliver(s, x.value, conflict, lsn).Some? && Live(Deliver(s, x.value, conflict, lsn).value.s.h)
  {
    DeliverGood(s, x, g, v, conflict, lsn);
  }

  lemma QuietLive(s: Local, g: bool, v: GtmView)
    requires Good(s, None, g, v) && Live(s.h)
    ensures Checkable(s.h)
  {
  }

  predicate AllLive(tx: Tx) {
    forall p :: p in tx.parts ==> p in tx.local && Live(tx.local[p].h)
  }

  predicate Quiet(tx: Tx) {
    forall p :: p in tx.parts ==> p in tx.flight && tx.flight[p] == multiset{}
  }

  predicate Delivers(step: Step, t: Txid) { step.Delivery? && step.t == t }

  // ---------------------------------------------------------------------
  // Deliveries keep a transaction live

  lemma StepLive(s: Sys, step: Step, t: Txid)
    requires Inv(s) && Delivers(step, t) && Legal(s, step) && AllLive(s.txs[t])
    ensures Next(s, step).Some? && Inv(Next(s, step).value)
    ensures var s' := Next(s, step).value;
      t in s'.txs && s'.txs[t].parts == s.txs[t].parts && AllLive(s'.txs[t])
  {
    hide TxInv, VoteStep, Emit, Deliver, Good, Live;
    NextOk(s, step);
    TxShape(s, t);
    if step.item.Vote? {
      VoteDelivered(s, t, step.p, step.item.conflict);
      VoteParts(s, t, step.p, step.item.conflict);
    } else {
      DeliveredLive(s, t, step.p, step.item, step.conflict, step.lsn);
    }
  }

  lemma VoteParts(s: Sys, t: Txid, p: Pid, vote: bool)
    requires Inv(s) && Participates(s, t, p) && Vote(vote) in s.txs[t].flight[p]
    ensures VoteStep(s.gtm, t, s.txs[t], p, vote).Some?
    ensures VoteStep(s.gtm, t, s.txs[t], p, vote).value.1.parts == s.txs[t].parts
  {
    hide PairOk, VotesOk, CountOk, VoteStep, View;
    var tx := s.txs[t];
    TxShape(s, t);
    BagOf(tx, p, View(tx, p), Vote(vote));
    VoteOk(s.gtm, t, tx, p, vote);
  }

  lemma DeliveredLive(s: Sys, t: Txid, p: Pid, i: Item, conflict: bool, lsn: nat)
    requires Inv(s) && Participates(s, t, p) && i in s.txs[t].flight[p] && !i.Vote? && Live(s.txs[t].local[p].h)
    ensures Deliver(s.txs[t].local[p], i, conflict, lsn).Some?
    ensures Live(Deliver(s.txs[t].local[p], i, conflict, lsn).value.s.h)
  {
    hide Good, Live, Deliver, CountOk, VotesOk, View;
    var tx := s.txs[t];
    TxShape(s, t);
    assert PairOk(tx, p, View(tx, p));
    BagOf(tx, p, View(tx, p), i);
    DeliverLive(tx.local[p], Some(i), |tx.parts| > 1, View(tx, p), conflict, lsn);
  }

  // ---------------------------------------------------------------------
  // Deliveries come to an end

  ghost function SumBudget(s: Sys, t: Txid, ps: seq<Pid>): nat {
    if ps == [] then 0 else Budget(s, t, ps[0]) + SumBudget(s, t, ps[1..])
  }

  lemma {:induction false} SumBound(s: Sys, t: Txid, ps: seq<Pid>)
    ensures SumBudget(s, t, ps) <= 10 * |ps|
  {
    if ps != [] { SumBound(s, t, ps[1..]); }
  }

  lemma {:induction false} SumDrops(s: Sys, step: Step, t: Txid, ps: seq<Pid>)
    requires Inv(s) && Legal(s, step) && Next(s, step).Some?
    ensures SumBudget(Next(s, step).value, t, ps) <= SumBudget(s, t, ps)
    ensures (exists i :: 0 <= i < |ps| && Spends(step, t, ps[i])) ==> SumBudget(Next(s, step).value, t, ps) < SumBudget(s, t, ps)
    decreases |ps|
  {
    hide Inv, Next, Legal, Budget, Spends;
    if ps != [] {
      StepBudget(s, step, t, ps[0]);
      SumDrops(s, step, t, ps[1..]);
      if exists i :: 0 <= i < |ps| && Spends(step, t, ps[i]) {
        var i :| 0 <= i < |ps| && Spends(step, t, ps[i]);
        if i > 0 { assert Spends(step, t, ps[1..][i - 1]); }
      }
    }
  }

  lemma {:induction false} Enumerate(all: set<Pid>) returns (ps: seq<Pid>)
    ensures |ps| == |all| && forall p :: p in all ==> p in ps
    decreases |all|
  {
    if all == {} {
      ps := [];
    } else {
      var p :| p in all;
      var rest := Enumerate(all - {p});
      ps := [p] + rest;
    }
  }

  /** Any run of deliveries of a transaction keeps it live and spends its budget. */
  lemma {:induction false} DeliveryRun(s: Sys, steps: seq<Step>, t: Txid, ps: seq<Pid>)
    requires Inv(s) && t in s.txs && AllLive(s.txs[t]) && forall p :: p in s.txs[t].parts ==> p in ps
    requires LegalRun(s, steps) && forall k :: 0 <= k < |steps| ==> Delivers(steps[k], t)
    ensures Run(s, steps).Some? && Inv(Run(s, steps).value)
    ensures var s' := Run(s, steps).value;
      && t in s'.txs && s'.txs[t].parts == s.txs[t].parts && AllLive(s'.txs[t])
      && |steps| + SumBudget(s', t, ps) <= SumBudget(s, t, ps)
    decreases |steps|
  {
    hide Inv, Next, Live, SumBudget, Budget, AllLive;
    if steps != [] {
      var step := steps[0];
      StepLive(s, step, t);
      var k :| 0 <= k < |ps| && ps[k] == step.p;
      assert Spends(step, t, ps[k]);
      SumDrops(s, step, t, ps);
      DeliveryRun(Next(s, step).value, steps[1..], t, ps);
    }
  }

  lemma DrainedWhenQuiet(s: Sys, t: Txid)
    requires Reachable(s) && t in s.txs && AllLive(s.txs[t]) && Quiet(s.txs[t])
    ensures Drained(s.txs[t])
  {
    hide Reachable, Good, TxInv, Live, View;
    forall p | p in s.txs[t].parts
      ensures p in s.txs[t].local && p in s.txs[t].flight && s.txs[t].flight[p] == multiset{} && Checkable(s.txs[t].local[p].h)
    {
      var x := ReachablePair(s, t, p);
      assert x.None?;
      QuietLive(s.txs[t].local[p], |s.txs[t].parts| > 1, View(s.txs[t], p));
    }
  }

  /** A delivery that is possible, whatever it is answered. */
  ghost predicate CanDeliver(s: Sys, t: Txid, p: Pid, i: Item) {
    forall conflict: bool, lsn: nat :: Legal(s, Delivery(t, p, i, conflict, lsn))
  }

  /** Every schedule finishes: however the deliveries of a live transaction are
      ordered and answered, there are at most ten for each participant; as long
      as something is in flight another is possible with any answer; and when
      nothing is, all participants have reported the outcome that the checks
      determine. */
  lemma EveryScheduleFinishes(s: Sys, t: Txid, steps: seq<Step>)
    requires Reachable(s) && t in s.txs && AllLive(s.txs[t])
    requires LegalRun(s, steps) && forall k :: 0 <= k < |steps| ==> Delivers(steps[k], t)
    ensures Run(s, steps).Some? && |steps| <= 10 * |s.txs[t].parts|
    ensures var s' := Run(s, steps).value;
      && t in s'.txs && s'.txs[t].parts == s.txs[t].parts
      && if Quiet(s'.txs[t]) then
           Drained(s'.txs[t]) && forall p :: p in s'.txs[t].parts ==> Participates(s', t, p) && Hist(s', t, p).reports != []
         else exists p, i :: CanDeliver(s', t, p, i)
  {
    hide Inv, LegalRun, Run, Live, Good, TxInv, Next, AllLive;
    ReachableInv(s);
    var ps := Enumerate(s.txs[t].parts);
    SumBound(s, t, ps);
    DeliveryRun(s, steps, t, ps);
    var s' := Run(s, steps).value;
    TxShape(s', t);
    if Quiet(s'.txs[t]) {
      StillReachable(s, steps, s');
      DrainedWhenQuiet(s', t);
      forall p | p in s'.txs[t].parts ensures Participates(s', t, p) && Hist(s', t, p).reports != [] {
        DrainedOutcome(s', t, p);
      }
    } else {
      var p :| p in s'.txs[t].parts && s'.txs[t].flight[p] != multiset{};
      var i :| i in s'.txs[t].flight[p];
      assert CanDeliver(s', t, p, i);
    }
  }

  // ---------------------------------------------------------------------
  // A schedule exists

  /** The k-th answers of the conflict indexes and the log stores. */
  type Answers = nat -> (bool, nat)

  predicate Follows(steps: seq<Step>, t: Txid, answers: Answers, from: nat) {
    forall k :: 0 <= k < |steps| ==> Delivers(steps[k], t) && (steps[k].conflict, steps[k].lsn) == answers(from + k)
  }

  lemma {:induction false} Drain(s: Sys, t: Txid, ps: seq<Pid>, answers: Answers, from: nat) returns (steps: seq<Step>, s': Sys)
    requires Inv(s) && t in s.txs && AllLive(s.txs[t]) && forall p :: p in s.txs[t].parts ==> p in ps
    ensures LegalRun(s, steps) && Run(s, steps) == Some(s') && Follows(steps, t, answers, from)
    ensures t in s'.txs && Quiet(s'.txs[t])
    decreases SumBudget(s, t, ps)
  {
    hide Inv, Next, Live, SumBudget, Budget, TxInv, AllLive;
    TxShape(s, t);
    var tx := s.txs[t];
    if Quiet(tx) {
      steps, s' := [], s;
    } else {
      var p :| p in tx.parts && tx.flight[p] != multiset{};
      var i :| i in tx.flight[p];
      var step := Delivery(t, p, i, answers(from).0, answers(from).1);
      StepLive(s, step, t);
      var k :| 0 <= k < |ps| && ps[k] == p;
      assert Spends(step, t, ps[k]);
      SumDrops(s, step, t, ps);
      var rest, last := Drain(Next(s, step).value, t, ps, answers, from + 1);
      steps, s' := [step] + rest, last;
      assert steps[1..] == rest;
      FollowsCons(step, rest, t, answers, from);
    }
  }

  lemma FollowsCons(step: Step, rest: seq<Step>, t: Txid, answers: Answers, from: nat)
    requires Delivers(step, t) && (step.conflict, step.lsn) == answers(from) && Follows(rest, t, answers, from + 1)
    ensures Follows([step] + rest, t, answers, from)
  {
    var steps := [step] + rest;
    forall k | 0 <= k < |steps| ensures Delivers(steps[k], t) && (steps[k].conflict, steps[k].lsn) == answers(from + k) {
      if k > 0 { assert steps[k] == rest[k - 1] && from + k == (from + 1) + (k - 1); }
    }
  }

  /** For every series of answers there is a continuation after which all the
      participants have reported. */
  lemma CanAlwaysFinish(s: Sys, t: Txid, answers: Answers) returns (steps: seq<Step>, s': Sys)
    requires Reachable(s) && t in s.txs && AllLive(s.txs[t])
    ensures LegalRun(s, steps) && Run(s, steps) == Some(s') && Follows(steps, t, answers, 0)
    ensures t in s'.txs && s'.txs[t].parts == s.txs[t].parts && Drained(s'.txs[t])
    ensures forall p :: p in s.txs[t].parts ==> Participates(s', t, p) && Hist(s', t, p).reports != []
  {
    hide Inv, LegalRun, Run, Live, Good, TxInv, AllLive;
    ReachableInv(s);
    var ps := Enumerate(s.txs[t].parts);
    steps, s' := Drain(s, t, ps, answers, 0);
    EveryScheduleFinishes(s, t, steps);
  }
}

/** The log player: it sends each transaction's log to every replica, keeps the
    replicas that have not answered, and retries failures with growing delays. */
module LogPlayer {
  import opened Bytes
  import opened Participant

  // ---------------------------------------------------------------------
  // One transaction's entries in the tables, and the handlers on them

  /** conns: replica connections so far; answer: replicas still to answer;
      retry: failures counted for each replica. */
  datatype Core = Core(conns: nat, log: seq<Entry>, answer: Option<seq<nat>>, retry: seq<nat>)

  function Range(n: nat): seq<nat> {
    seq(n, i requires 0 <= i < n => i)
  }

  function Zeros(n: nat): seq<nat> {
    seq(n, i requires 0 <= i < n => 0)
  }

  function Remove(l: seq<nat>, id: nat): seq<nat> {
    if l == [] then [] else if l[0] == id then Remove(l[1..], id) else [l[0]] + Remove(l[1..], id)
  }

  /** The first play sets up the tables; every play goes to the unanswered. */
  function Played(c: Core): Core {
    if c.answer.Some? then c else c.(answer := Some(Range(c.conns)), retry := Zeros(c.conns))
  }

  function Targets(c: Core): seq<nat> {
    Played(c).answer.value
  }

  /** kExecTranSucc. An unknown transaction gets an empty entry. */
  function Acked(c: Core, id: nat): Core {
    c.(answer := Some(if c.answer.None? then [] else Remove(c.answer.value, id)))
  }

  /** kExecTranFail counts. */
  function Failed(c: Core, id: nat): Core
    requires id < |c.retry|
  {
    c.(retry := c.retry[id := c.retry[id] + 1])
  }

  /** Delay of the k-th retry in milliseconds. */
  function Delay(k: nat): nat {
    Pow2(k) * 1000
  }

  // ---------------------------------------------------------------------
  // Runs of one transaction; maxRetry is the configured limit

  datatype Play = Play(data: seq<Entry>, targets: seq<nat>)

  /** timers: retries scheduled and not yet fired. */
  datatype Run = Run(c: Core, timers: nat, writes: nat, acked: set<nat>, plays: seq<Play>)

  const IDLE := Run(Core(0, [], None, []), 0, 0, {}, [])

  datatype Op = Connect | Write(data: seq<Entry>) | Fire | Ack(id: nat) | Fail(id: nat)

  predicate Legal(r: Run, op: Op) {
    match op
    case Fire => r.timers > 0
    case Fail(id) => id < |r.c.retry|
    case _ => true
  }

  function Replay(r: Run): Run {
    r.(c := Played(r.c), plays := r.plays + [Play(r.c.log, Targets(r.c))])
  }

  function Next(r: Run, op: Op, maxRetry: nat): Run
    requires Legal(r, op)
  {
    match op
    case Connect => r.(c := r.c.(conns := r.c.conns + 1))
    case Write(data) => Replay(r.(c := r.c.(log := r.c.log + data), writes := r.writes + 1))
    case Fire => Replay(r.(timers := r.timers - 1))
    case Ack(id) => r.(c := Acked(r.c, id), acked := r.acked + {id})
    case Fail(id) =>
      r.(c := Failed(r.c, id), timers := if r.c.retry[id] + 1 > maxRetry then r.timers else r.timers + 1)
  }

  predicate LegalRun(r: Run, ops: seq<Op>, maxRetry: nat)
    decreases |ops|
  {
    ops == [] || (Legal(r, ops[0]) && LegalRun(Next(r, ops[0], maxRetry), ops[1..], maxRetry))
  }

  function After(r: Run, ops: seq<Op>, maxRetry: nat): Run
    requires LegalRun(r, ops, maxRetry)
    decreases |ops|
  {
    if ops == [] then r else After(Next(r, ops[0], maxRetry), ops[1..], maxRetry)
  }

  // ---------------------------------------------------------------------
  // Which replicas are unanswered

  /** The replicas 0, ..., n - 1 without those acknowledged, in order. */
  function Unacked(n: nat, acked: set<nat>): seq<nat> {
    if n == 0 then [] else Unacked(n - 1, acked) + if n - 1 in acked then [] else [n - 1]
  }

  lemma {:induction false} UnackedMembers(n: nat, acked: set<nat>, x: nat)
    ensures x in Unacked(n, acked) <==> x < n && x !in acked
  {
    if n > 0 { UnackedMembers(n - 1, acked, x); }
  }

  lemma {:induction false} UnackedNone(n: nat)
    ensures Unacked(n, {}) == Range(n)
  {
    if n > 0 {
      UnackedNone(n - 1);
      assert Range(n) == Range(n - 1) + [n - 1];
    }
  }

  lemma {:induction false} RemoveConcat(a: seq<nat>, b: seq<nat>, id: nat)
    ensures Remove(a + b, id) == Remove(a, id) + Remove(b, id)
  {
    if a == [] {
      assert a + b == b;
    } else {
      assert (a + b)[1..] == a[1..] + b;
      RemoveConcat(a[1..], b, id);
    }
  }

  lemma {:induction false} UnackedRemove(n: nat, acked: set<nat>, id: nat)
    ensures Remove(Unacked(n, acked), id) == Unacked(n, acked + {id})
  {
    if n > 0 {
      UnackedRemove(n - 1, acked, id);
      RemoveConcat(Unacked(n - 1, acked), if n - 1 in acked then [] else [n - 1], id);
    }
  }

  // ---------------------------------------------------------------------
  // What every step keeps

  function Min(a: nat, b: nat): nat { if a < b then a else b }

  /** Timers that the failures of all replicas have scheduled so far. */
  function Scheduled(retry: seq<nat>, maxRetry: nat): nat {
    if retry == [] then 0 else Min(retry[0], maxRetry) + Scheduled(retry[1..], maxRetry)
  }

  lemma {:induction false} ScheduledBound(retry: seq<nat>, maxRetry: nat)
    ensures Scheduled(retry, maxRetry) <= |retry| * maxRetry
  {
    if retry != [] {
      ScheduledBound(retry[1..], maxRetry);
      assert |retry| * maxRetry == |retry[1..]| * maxRetry + maxRetry;
    }
  }

  lemma {:induction false} ScheduledFail(retry: seq<nat>, id: nat, maxRetry: nat)
    requires id < |retry|
    ensures Scheduled(retry[id := retry[id] + 1], maxRetry)
      == Scheduled(retry, maxRetry) + if retry[id] + 1 > maxRetry then 0 else 1
  {
    var r' := retry[id := retry[id] + 1];
    if id == 0 {
      assert r'[1..] == retry[1..];
    } else {
      assert r'[1..] == retry[1..][id - 1 := retry[1..][id - 1] + 1];
      ScheduledFail(retry[1..], id - 1, maxRetry);
    }
  }

  lemma {:induction false} ScheduledZeros(n: nat, maxRetry: nat)
    ensures Scheduled(Zeros(n), maxRetry) == 0
  {
    if n > 0 {
      assert Zeros(n)[1..] == Zeros(n - 1);
      ScheduledZeros(n - 1, maxRetry);
    }
  }

  /** Nothing played and nothing logged yet. */
  predicate Unplayed(r: Run) {
    && r.plays == [] && r.c.log == [] && r.timers == 0 && r.c.retry == []
    && r.c.answer == if r.acked == {} then None else Some([])
  }

  /** The unanswered list is the replicas of the first play without those that
      acknowledged, all of them connected, and every play is the written one or
      one scheduled retry. */
  predicate Inv(r: Run, maxRetry: nat) {
    && |r.c.retry| <= r.c.conns
    && (if r.c.answer.None? then r.c.retry == [] && r.acked == {} && r.plays == []
        else r.c.answer.value == Unacked(|r.c.retry|, r.acked))
    && |r.plays| + r.timers == r.writes + Scheduled(r.c.retry, maxRetry)
    && if r.writes == 0 then Unplayed(r) else r.plays != []
  }

  lemma PlayedOk(c: Core, acked: set<nat>, maxRetry: nat)
    requires if c.answer.None? then c.retry == [] && acked == {} else c.answer.value == Unacked(|c.retry|, acked)
    requires |c.retry| <= c.conns
    ensures Targets(c) == Unacked(|Played(c).retry|, acked) && |Played(c).retry| <= c.conns
    ensures Scheduled(Played(c).retry, maxRetry) == Scheduled(c.retry, maxRetry)
  {
    UnackedNone(c.conns);
    ScheduledZeros(c.conns, maxRetry);
  }

  lemma NextOk(r: Run, op: Op, maxRetry: nat)
    requires Inv(r, maxRetry) && Legal(r, op)
    ensures Inv(Next(r, op, maxRetry), maxRetry)
  {
    match op
    case Connect =>
    case Write(data) => PlayedOk(r.c.(log := r.c.log + data), r.acked, maxRetry);
    case Fire => PlayedOk(r.c, r.acked, maxRetry);
    case Ack(id) => UnackedRemove(|r.c.retry|, r.acked, id);
    case Fail(id) => ScheduledFail(r.c.retry, id, maxRetry);
  }

  lemma {:induction false} AfterOk(r: Run, ops: seq<Op>, maxRetry: nat)
    requires Inv(r, maxRetry) && LegalRun(r, ops, maxRetry)
    ensures Inv(After(r, ops, maxRetry), maxRetry)
    decreases |ops|
  {
    hide Inv, Next, Legal;
    if ops != [] {
      NextOk(r, ops[0], maxRetry);
      AfterOk(Next(r, ops[0], maxRetry), ops[1..], maxRetry);
    }
  }

  // ---------------------------------------------------------------------
  // Main theorems

  predicate NoWrite(ops: seq<Op>) { forall k :: 0 <= k < |ops| ==> !ops[k].Write? }

  lemma {:induction false} AfterConcat(r: Run, a: seq<Op>, b: seq<Op>, maxRetry: nat)
    requires LegalRun(r, a + b, maxRetry)
    ensures LegalRun(r, a, maxRetry) && LegalRun(After(r, a, maxRetry), b, maxRetry)
    ensures After(r, a + b, maxRetry) == After(After(r, a, maxRetry), b, maxRetry)
    decreases |a|
  {
    hide Legal, Next;
    if a == [] {
      assert a + b == b;
    } else {
      assert (a + b)[1..] == a[1..] + b;
      AfterConcat(Next(r, a[0], maxRetry), a[1..], b, maxRetry);
    }
  }

  lemma {:induction false} LegalConcat(r: Run, a: seq<Op>, b: seq<Op>, maxRetry: nat)
    requires LegalRun(r, a, maxRetry) && LegalRun(After(r, a, maxRetry), b, maxRetry)
    ensures LegalRun(r, a + b, maxRetry)
    ensures After(r, a + b, maxRetry) == After(After(r, a, maxRetry), b, maxRetry)
    decreases |a|
  {
    hide Legal, Next;
    if a == [] {
      assert a + b == b;
    } else {
      assert (a + b)[1..] == a[1..] + b;
      LegalConcat(Next(r, a[0], maxRetry), a[1..], b, maxRetry);
    }
  }

  lemma {:induction false} AfterSnoc(r: Run, ops: seq<Op>, op: Op, maxRetry: nat)
    requires LegalRun(r, ops, maxRetry) && Legal(After(r, ops, maxRetry), op)
    ensures LegalRun(r, ops + [op], maxRetry)
    ensures After(r, ops + [op], maxRetry) == Next(After(r, ops, maxRetry), op, maxRetry)
    decreases |ops|
  {
    hide Legal, Next;
    if ops == [] {
      assert ([] + [op])[1..] == [];
    } else {
      assert (ops + [op])[1..] == ops[1..] + [op];
      AfterSnoc(Next(r, ops[0], maxRetry), ops[1..], op, maxRetry);
    }
  }

  lemma {:induction false} BeforeWrite(r: Run, ops: seq<Op>, maxRetry: nat)
    requires Unplayed(r) && LegalRun(r, ops, maxRetry) && NoWrite(ops)
    ensures Unplayed(After(r, ops, maxRetry))
    decreases |ops|
  {
    if ops != [] {
      BeforeWrite(Next(r, ops[0], maxRetry), ops[1..], maxRetry);
    }
  }

  /** Once there is a list, later connections do not enter it. */
  lemma {:induction false} ReplicasFixed(r: Run, ops: seq<Op>, maxRetry: nat)
    requires r.c.answer.Some? && LegalRun(r, ops, maxRetry)
    ensures var r' := After(r, ops, maxRetry);
      r'.c.answer.Some? && |r'.c.retry| == |r.c.retry| && r.c.conns <= r'.c.conns
    decreases |ops|
  {
    if ops != [] { ReplicasFixed(Next(r, ops[0], maxRetry), ops[1..], maxRetry); }
  }

  /** A run up to its first write, the write, and whatever follows. */
  predicate FirstWrite(a: seq<Op>, w: seq<Entry>, b: seq<Op>, maxRetry: nat) {
    LegalRun(IDLE, a + ([Write(w)] + b), maxRetry) && NoWrite(a)
  }

  predicate OneWrite(a: seq<Op>, w: seq<Entry>, b: seq<Op>, maxRetry: nat) {
    FirstWrite(a, w, b, maxRetry) && NoWrite(b)
  }

  function Finally(a: seq<Op>, w: seq<Entry>, b: seq<Op>, maxRetry: nat): Run
    requires FirstWrite(a, w, b, maxRetry)
  {
    After(IDLE, a + ([Write(w)] + b), maxRetry)
  }

  /** The run splits at its first write. */
  lemma Split(a: seq<Op>, w: seq<Entry>, b: seq<Op>, maxRetry: nat) returns (r0: Run, r1: Run)
    requires FirstWrite(a, w, b, maxRetry)
    ensures LegalRun(IDLE, a, maxRetry) && r0 == After(IDLE, a, maxRetry) && Unplayed(r0)
    ensures r1 == Next(r0, Write(w), maxRetry) && LegalRun(r1, b, maxRetry)
    ensures Finally(a, w, b, maxRetry) == After(r1, b, maxRetry)
  {
    hide Next;
    AfterConcat(IDLE, a, [Write(w)] + b, maxRetry);
    BeforeWrite(IDLE, a, maxRetry);
    r0 := After(IDLE, a, maxRetry);
    r1 := Next(r0, Write(w), maxRetry);
    assert ([Write(w)] + b)[1..] == b;
  }

  /** The replicas of the first play: all that are connected, unless an
      acknowledgement came before it. */
  function Replicas(r: Run): nat { if r.acked == {} then r.c.conns else 0 }

  // ---------------------------------------------------------------------
  // The state of a run is what its operations say

  function Acks(ops: seq<Op>): set<nat> {
    if ops == [] then {} else (if ops[0].Ack? then {ops[0].id} else {}) + Acks(ops[1..])
  }

  lemma {:induction false} AckIn(ops: seq<Op>, k: nat)
    requires k < |ops| && ops[k].Ack?
    ensures ops[k].id in Acks(ops)
  {
    if k > 0 { AckIn(ops[1..], k - 1); }
  }

  /** All entries written, in order. */
  function Written(ops: seq<Op>): seq<Entry> {
    if ops == [] then [] else (if ops[0].Write? then ops[0].data else []) + Written(ops[1..])
  }

  /** How many plays the operations make. */
  function PlaysIn(ops: seq<Op>): nat {
    if ops == [] then 0 else (if ops[0].Write? || ops[0].Fire? then 1 else 0) + PlaysIn(ops[1..])
  }

  function CountAt(retry: seq<nat>, id: nat): nat { if id < |retry| then retry[id] else 0 }

  lemma StepIsTrace(r: Run, op: Op, maxRetry: nat, id: nat)
    requires Inv(r, maxRetry) && Legal(r, op)
    ensures var r' := Next(r, op, maxRetry);
      && r'.acked == r.acked + (if op.Ack? then {op.id} else {})
      && r'.c.log == r.c.log + (if op.Write? then op.data else [])
      && r'.c.conns == r.c.conns + (if op.Connect? then 1 else 0)
      && |r'.plays| == |r.plays| + (if op.Write? || op.Fire? then 1 else 0)
      && CountAt(r'.c.retry, id) == CountAt(r.c.retry, id) + if op == Fail(id) then 1 else 0
  {
  }

  /** Acknowledgements, log, connections, plays and each replica's failures after
      a run are those of its operations. */
  lemma {:induction false} RunIsTrace(r: Run, ops: seq<Op>, maxRetry: nat, id: nat)
    requires Inv(r, maxRetry) && LegalRun(r, ops, maxRetry)
    ensures var r' := After(r, ops, maxRetry);
      && r'.acked == r.acked + Acks(ops) && r'.c.log == r.c.log + Written(ops)
      && r'.c.conns == r.c.conns + multiset(ops)[Connect]
      && |r'.plays| == |r.plays| + PlaysIn(ops)
      && CountAt(r'.c.retry, id) == CountAt(r.c.retry, id) + multiset(ops)[Fail(id)]
    decreases |ops|
  {
    hide Inv, Next, Legal, CountAt;
    if ops != [] {
      NextOk(r, ops[0], maxRetry);
      StepIsTrace(r, ops[0], maxRetry, id);
      RunIsTrace(Next(r, ops[0], maxRetry), ops[1..], maxRetry, id);
      assert ops == [ops[0]] + ops[1..];
    }
  }

  lemma {:induction false} PlaysStay(r: Run, ops: seq<Op>, maxRetry: nat)
    requires LegalRun(r, ops, maxRetry)
    ensures |r.plays| <= |After(r, ops, maxRetry).plays| && After(r, ops, maxRetry).plays[..|r.plays|] == r.plays
    decreases |ops|
  {
    hide Legal;
    if ops != [] {
      var r1 := Next(r, ops[0], maxRetry);
      assert r1.plays[..|r.plays|] == r.plays;
      PlaysStay(r1, ops[1..], maxRetry);
      var all := After(r1, ops[1..], maxRetry).plays;
      assert all[..|r.plays|] == all[..|r1.plays|][..|r.plays|];
    }
  }

  /** Every write and every retry is a play of all that was written up to then,
      to exactly the replicas of the first play that had not acknowledged. */
  lemma PlayIsTrace(ops: seq<Op>, j: nat, maxRetry: nat)
    requires LegalRun(IDLE, ops, maxRetry) && j < |ops| && (ops[j].Write? || ops[j].Fire?)
    ensures var r, k := After(IDLE, ops, maxRetry), PlaysIn(ops[..j]);
      && k < |r.plays| && r.plays[k].data == Written(ops[..j + 1])
      && forall x: nat :: x in r.plays[k].targets <==> x < |r.c.retry| && x !in Acks(ops[..j])
  {
    hide Inv, LegalRun, After;
    var a, b := ops[..j + 1], ops[j + 1..];
    assert ops == a + b && a == ops[..j] + [ops[j]];
    AfterConcat(IDLE, a, b, maxRetry);
    AfterConcat(IDLE, ops[..j], [ops[j]], maxRetry);
    var r0, r1 := After(IDLE, ops[..j], maxRetry), After(IDLE, a, maxRetry);
    IdleOk(maxRetry);
    AfterOk(IDLE, ops[..j], maxRetry);
    RunIsTrace(IDLE, ops[..j], maxRetry, 0);
    RunIsTrace(IDLE, a, maxRetry, 0);
    OneStep(r0, ops[j], maxRetry);
    PlayMade(r0, ops[j], maxRetry);
    PlaysStay(r1, b, maxRetry);
    ReplicasFixed(r1, b, maxRetry);
    var r := After(IDLE, ops, maxRetry);
    assert r.plays[|r0.plays|] == r.plays[..|r1.plays|][|r0.plays|];
  }

  lemma IdleOk(maxRetry: nat)
    ensures Inv(IDLE, maxRetry)
  {
  }

  lemma OneStep(r: Run, op: Op, maxRetry: nat)
    requires LegalRun(r, [op], maxRetry)
    ensures Legal(r, op) && After(r, [op], maxRetry) == Next(r, op, maxRetry)
  {
    assert [op][1..] == [];
  }

  lemma PlayMade(r: Run, op: Op, maxRetry: nat)
    requires Inv(r, maxRetry) && Legal(r, op) && (op.Write? || op.Fire?)
    ensures var r' := Next(r, op, maxRetry);
      && |r'.plays| == |r.plays| + 1 && r'.c.answer.Some? && r'.plays[|r.plays|].data == r'.c.log
      && forall x: nat :: x in r'.plays[|r.plays|].targets <==> x < |r'.c.retry| && x !in r.acked
  {
    var r' := Next(r, op, maxRetry);
    var c := if op.Write? then r.c.(log := r.c.log + op.data) else r.c;
    PlayedOk(c, r.acked, maxRetry);
    forall x: nat ensures x in Unacked(|r'.c.retry|, r.acked) <==> x < |r'.c.retry| && x !in r.acked {
      UnackedMembers(|r'.c.retry|, r.acked, x);
    }
  }

  lemma WrittenIsPlayed(r: Run, maxRetry: nat)
    requires Inv(r, maxRetry) && r.writes > 0
    ensures r.plays != []
  {
  }

  /** The plays from index k on carry the log, to all yet to acknowledge. */
  predicate PlaysFrom(r: Run, k: nat) {
    forall j :: k <= j < |r.plays| ==> r.plays[j] == Play(r.c.log, Unacked(|r.c.retry|, r.acked))
  }

  lemma WritePlays(r: Run, data: seq<Entry>, maxRetry: nat)
    requires Inv(r, maxRetry)
    ensures PlaysFrom(Next(r, Write(data), maxRetry), |r.plays|)
  {
    PlayedOk(r.c.(log := r.c.log + data), r.acked, maxRetry);
  }

  /** A series of retries: nothing but plays. */
  lemma {:induction false} FiresPlay(r: Run, ops: seq<Op>, maxRetry: nat)
    requires Inv(r, maxRetry) && LegalRun(r, ops, maxRetry) && forall k :: 0 <= k < |ops| ==> ops[k] == Fire
    ensures var r' := After(r, ops, maxRetry);
      && PlaysFrom(r', |r.plays|) && |r.plays| <= |r'.plays|
      && r'.c == r.c && r'.acked == r.acked && r'.writes == r.writes
    decreases |ops|
  {
    if ops != [] {
      NextOk(r, Fire, maxRetry);
      PlayedOk(r.c, r.acked, maxRetry);
      var r1 := Next(r, Fire, maxRetry);
      FiresPlay(r1, ops[1..], maxRetry);
      PlaysStay(r1, ops[1..], maxRetry);
      var plays := After(r, ops, maxRetry).plays;
      assert plays[|r.plays|] == plays[..|r1.plays|][|r.plays|];
    }
  }

  /** After every run with writes, connections, acks, failures and retries, the
      unanswered list is exactly the replicas of the first play minus those that
      have acknowledged, each a valid connection. The replicas of the first play
      are all that were connected, unless an acknowledgement came before it. */
  lemma AckTracking(a: seq<Op>, w: seq<Entry>, b: seq<Op>, maxRetry: nat)
    requires FirstWrite(a, w, b, maxRetry)
    ensures var n, r, acks := if Acks(a) == {} then multiset(a)[Connect] else 0, Finally(a, w, b, maxRetry), Acks(a + ([Write(w)] + b));
      && r.c.answer == Some(Unacked(n, acks)) && n <= r.c.conns == multiset(a + ([Write(w)] + b))[Connect]
      && forall x: nat :: x in r.c.answer.value <==> x < n && x !in acks
  {
    hide LegalRun, After;
    var ops := a + ([Write(w)] + b);
    AfterOk(IDLE, ops, maxRetry);
    var r0, r1 := Split(a, w, b, maxRetry);
    ReplicasFixed(r1, b, maxRetry);
    RunIsTrace(IDLE, a, maxRetry, 0);
    RunIsTrace(IDLE, ops, maxRetry, 0);
    var n, r := Replicas(r0), Finally(a, w, b, maxRetry);
    forall x: nat ensures x in Unacked(n, r.acked) <==> x < n && x !in r.acked {
      UnackedMembers(n, r.acked, x);
    }
  }

  /** One logged transaction over n replicas is played at most 1 + n * maxRetry
      times, however many failures are reported. Exactly: each play is a write or
      the retry of one of the first maxRetry failures of a replica. */
  lemma BoundedRetry(ops: seq<Op>, maxRetry: nat)
    requires LegalRun(IDLE, ops, maxRetry) && After(IDLE, ops, maxRetry).writes <= 1
    ensures var r := After(IDLE, ops, maxRetry);
      && |r.plays| <= 1 + |r.c.retry| * maxRetry
      && |r.plays| + r.timers == r.writes + Scheduled(r.c.retry, maxRetry)
      && forall id: nat :: id < |r.c.retry| ==> r.c.retry[id] == multiset(ops)[Fail(id)]
  {
    AfterOk(IDLE, ops, maxRetry);
    forall id: nat | id < |After(IDLE, ops, maxRetry).c.retry|
      ensures After(IDLE, ops, maxRetry).c.retry[id] == multiset(ops)[Fail(id)]
    {
      RunIsTrace(IDLE, ops, maxRetry, id);
    }
    ScheduledBound(After(IDLE, ops, maxRetry).c.retry, maxRetry);
  }

  /** Once a replica has acknowledged, no later play goes to it. */
  lemma AckedNeverSent(ops: seq<Op>, i: nat, j: nat, maxRetry: nat)
    requires LegalRun(IDLE, ops, maxRetry) && i < j < |ops| && ops[i].Ack? && (ops[j].Write? || ops[j].Fire?)
    ensures var plays, k := After(IDLE, ops, maxRetry).plays, PlaysIn(ops[..j]);
      k < |plays| && ops[i].id !in plays[k].targets
  {
    PlayIsTrace(ops, j, maxRetry);
    assert ops[..j][i] == ops[i];
    AckIn(ops[..j], i);
  }

  lemma {:induction false} LogKept(r: Run, ops: seq<Op>, maxRetry: nat)
    requires LegalRun(r, ops, maxRetry) && NoWrite(ops)
    requires forall k :: 0 <= k < |r.plays| ==> r.plays[k].data == r.c.log
    ensures var r' := After(r, ops, maxRetry);
      && r'.c.log == r.c.log && |r.plays| <= |r'.plays|
      && forall k :: 0 <= k < |r'.plays| ==> r'.plays[k].data == r.c.log
    decreases |ops|
  {
    if ops != [] {
      LogKept(Next(r, ops[0], maxRetry), ops[1..], maxRetry);
    }
  }

  /** With one write there is a play, and every play and every retry carries
      exactly the data of that write. */
  lemma EveryPlayCarriesLog(a: seq<Op>, w: seq<Entry>, b: seq<Op>, maxRetry: nat)
    requires OneWrite(a, w, b, maxRetry)
    ensures var r := Finally(a, w, b, maxRetry);
      r.plays != [] && forall k :: 0 <= k < |r.plays| ==> r.plays[k].data == w
  {
    var r0, r1 := Split(a, w, b, maxRetry);
    assert [] + w == w;
    LogKept(r1, b, maxRetry);
  }

  /** The first play reaches all connected replicas exactly if none of them
      was connected or no acknowledgement of the transaction came before it. */
  lemma FirstPlayReachesAll(ops: seq<Op>, maxRetry: nat)
    requires LegalRun(IDLE, ops, maxRetry) && After(IDLE, ops, maxRetry).plays == []
    ensures var r := After(IDLE, ops, maxRetry);
      Targets(r.c) == Range(r.c.conns) <==> r.c.conns == 0 || r.acked == {}
  {
    NoPlays(IDLE, ops, maxRetry);
  }

  lemma {:induction false} NoPlays(r: Run, ops: seq<Op>, maxRetry: nat)
    requires LegalRun(r, ops, maxRetry) && After(r, ops, maxRetry).plays == [] && r.plays == []
    requires r.c.retry == [] && r.timers == 0 && (r.c.answer == if r.acked == {} then None else Some([]))
    ensures var r' := After(r, ops, maxRetry);
      r'.c.answer == if r'.acked == {} then None else Some([])
    decreases |ops|
  {
    if ops != [] {
      PlaysGrow(Next(r, ops[0], maxRetry), ops[1..], maxRetry);
      NoPlays(Next(r, ops[0], maxRetry), ops[1..], maxRetry);
    }
  }

  lemma {:induction false} PlaysGrow(r: Run, ops: seq<Op>, maxRetry: nat)
    requires LegalRun(r, ops, maxRetry)
    ensures |r.plays| <= |After(r, ops, maxRetry).plays|
    decreases |ops|
  {
    if ops != [] { PlaysGrow(Next(r, ops[0], maxRetry), ops[1..], maxRetry); }
  }

  /** An early acknowledgement silences the log for a connected replica. */
  lemma EarlyAckSilences()
    ensures LegalRun(IDLE, [Connect, Ack(0)], 0)
    ensures Targets(After(IDLE, [Connect, Ack(0)], 0).c) == [] && After(IDLE, [Connect, Ack(0)], 0).c.conns == 1
  {
    var ops: seq<Op> := [Connect, Ack(0)];
    var r1 := Next(IDLE, Connect, 0);
    assert ops[1..] == [Ack(0)] && ops[1..][1..] == [];
    assert LegalRun(r1, ops[1..], 0);
    assert After(r1, ops[1..], 0) == Next(r1, Ack(0), 0);
  }
}

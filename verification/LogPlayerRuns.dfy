/** The LogPlayer class over any series of events: for each transaction, what the
    class does is a run of module LogPlayer, its pending timers on the wheel being
    the run's, so that the bounds proved for runs hold of the class. */
module LogPlayerRuns {
  import opened Bytes
  import opened DeadlineQueue
  import opened LogStore
  import P = Participant
  import W = TimeWheelImpl
  import L = LogPlayer

  /** What reaches the log store. */
  datatype Event =
    | Connected
    | Logged(txid: Txid, data: seq<P.Entry>)
    | Succ(txid: Txid, id: nat)
    | Fail(txid: Txid, id: nat)
    | Ticked

  /** How many of the timers are for transaction t. */
  function CountFor(ts: seq<W.Timer>, callback: map<W.Timer, Txid>, t: Txid): nat {
    if ts == [] then 0
    else (if ts[0] in callback && callback[ts[0]] == t then 1 else 0) + CountFor(ts[1..], callback, t)
  }

  lemma {:induction false} CountSnoc(ts: seq<W.Timer>, w: W.Timer, callback: map<W.Timer, Txid>, t: Txid)
    ensures CountFor(ts + [w], callback, t)
      == CountFor(ts, callback, t) + if w in callback && callback[w] == t then 1 else 0
  {
    if ts == [] {
      assert ([] + [w])[1..] == [];
    } else {
      assert (ts + [w])[1..] == ts[1..] + [w];
      CountSnoc(ts[1..], w, callback, t);
    }
  }

  /** A new timer's callback does not change the others'. */
  lemma {:induction false} CountNew(ts: seq<W.Timer>, w: W.Timer, u: Txid, callback: map<W.Timer, Txid>, t: Txid)
    requires w !in ts
    ensures CountFor(ts, callback[w := u], t) == CountFor(ts, callback, t)
  {
    if ts != [] { CountNew(ts[1..], w, u, callback, t); }
  }

  lemma {:induction false} CountSplit(ts: seq<W.Timer>, a: set<W.Timer>, callback: map<W.Timer, Txid>, t: Txid)
    ensures CountFor(ts, callback, t) == CountFor(Within(ts, a), callback, t) + CountFor(Without(ts, a), callback, t)
  {
    if ts != [] {
      CountSplit(ts[1..], a, callback, t);
      assert ([ts[0]] + Within(ts[1..], a))[1..] == Within(ts[1..], a);
      assert ([ts[0]] + Without(ts[1..], a))[1..] == Without(ts[1..], a);
    }
  }

  /** The class is in the state of run r of transaction t, apart from timers
      that have fired and are yet to play. */
  ghost predicate Stands(lp: LogStore.LogPlayer, t: Txid, r: L.Run, firing: nat)
    reads lp, lp.timeWheel
  {
    r.c == lp.View(t) && r.timers == CountFor(lp.timeWheel.pending, lp.callback, t) + firing
  }

  /** The messages of the plays that the run has and r did not have. */
  predicate Sent(r: L.Run, r': L.Run, t: Txid, played: seq<seq<Sent>>) {
    && |r'.plays| == |r.plays| + |played| && r'.plays[..|r.plays|] == r.plays
    && forall k :: 0 <= k < |played| ==>
         played[k] == Sends(t, r'.plays[|r.plays| + k].data, r'.plays[|r.plays| + k].targets)
  }

  lemma SentTrans(a: L.Run, b: L.Run, c: L.Run, t: Txid, x: seq<seq<Sent>>, y: seq<seq<Sent>>)
    requires Sent(a, b, t, x) && Sent(b, c, t, y)
    ensures Sent(a, c, t, x + y)
  {
    hide Sends;
    assert c.plays[..|a.plays|] == c.plays[..|b.plays|][..|a.plays|];
    forall k | 0 <= k < |x + y|
      ensures (x + y)[k] == Sends(t, c.plays[|a.plays| + k].data, c.plays[|a.plays| + k].targets)
    {
      if k < |x| {
        assert c.plays[|a.plays| + k] == c.plays[..|b.plays|][|a.plays| + k] == b.plays[|a.plays| + k];
      } else {
        assert (x + y)[k] == y[k - |x|];
      }
    }
  }

  lemma SentNothing(r: L.Run, r': L.Run, t: Txid)
    requires r'.plays == r.plays
    ensures Sent(r, r', t, [])
  {
  }

  lemma SentOne(r: L.Run, r': L.Run, t: Txid, play: L.Play)
    requires r'.plays == r.plays + [play]
    ensures Sent(r, r', t, [Sends(t, play.data, play.targets)])
  {
  }

  // ---------------------------------------------------------------------
  // One event

  method OnConnected(lp: LogStore.LogPlayer, ghost t: Txid, ghost r: L.Run)
    requires lp.Valid() && Stands(lp, t, r, 0)
    modifies lp`dbConns
    ensures lp.Valid() && Stands(lp, t, L.Next(r, L.Connect, lp.maxRetry), 0)
  {
    hide CountFor;
    lp.OnDbConnection();
  }

  method OnLogged(lp: LogStore.LogPlayer, u: Txid, data: seq<P.Entry>, t: Txid, ghost r: L.Run) returns (played: seq<seq<Sent>>)
    requires lp.Valid() && Stands(lp, t, r, 0)
    modifies lp`logTable, lp`answerTable, lp`retryTable
    ensures lp.Valid()
    ensures var r' := if u == t then L.Next(r, L.Write(data), lp.maxRetry) else r;
      Stands(lp, t, r', 0) && Sent(r, r', t, played)
  {
    hide CountFor, Sends, Sent;
    var sent := lp.WriteToDisk(u, data);
    if u == t {
      played := [sent];
      ghost var r' := L.Next(r, L.Write(data), lp.maxRetry);
      SentOne(r, r', t, r'.plays[|r.plays|]);
    } else {
      played := [];
      SentNothing(r, r, t);
    }
  }

  method OnSucc(lp: LogStore.LogPlayer, u: Txid, id: nat, ghost t: Txid, ghost r: L.Run)
    requires lp.Valid() && Stands(lp, t, r, 0)
    modifies lp`answerTable
    ensures lp.Valid() && Stands(lp, t, if u == t then L.Next(r, L.Ack(id), lp.maxRetry) else r, 0)
  {
    hide CountFor;
    lp.Succeeded(u, id);
  }

  method OnFail(lp: LogStore.LogPlayer, u: Txid, id: nat, ghost t: Txid, ghost r: L.Run)
    requires lp.Valid() && id < |lp.View(u).retry| && Stands(lp, t, r, 0)
    modifies lp`retryTable, lp`callback, lp.timeWheel
    ensures lp.Valid() && (u == t ==> L.Legal(r, L.Fail(id)))
    ensures Stands(lp, t, if u == t then L.Next(r, L.Fail(id), lp.maxRetry) else r, 0)
    ensures forall j :: 0 <= j < |lp.timeWheel.pending| ==> lp.timeWheel.pending[j] in old(lp.timeWheel.pending) || fresh(lp.timeWheel.pending[j])
  {
    hide CountFor, W.Wait, L.Delay;
    ghost var was, callback := lp.timeWheel.pending, lp.callback;
    var timer := lp.Failed(u, id);
    if timer != null {
      ghost var w: W.Timer := timer;
      CountNew(was, w, u, callback, t);
      CountSnoc(was, w, lp.callback, t);
    }
  }

  /** A tick, and the plays of the timers that fired for t. */
  method OnTicked(lp: LogStore.LogPlayer, t: Txid, ghost r: L.Run) returns (played: seq<seq<Sent>>, ghost ops: seq<L.Op>)
    requires lp.Valid() && Stands(lp, t, r, 0)
    modifies lp`answerTable, lp`retryTable, lp.timeWheel, lp.timeWheel.pending
    ensures lp.Valid() && L.LegalRun(r, ops, lp.maxRetry)
    ensures Stands(lp, t, L.After(r, ops, lp.maxRetry), 0) && Sent(r, L.After(r, ops, lp.maxRetry), t, played)
    ensures forall k :: 0 <= k < |ops| ==> ops[k] == L.Fire
    ensures forall j :: 0 <= j < |lp.timeWheel.pending| ==> lp.timeWheel.pending[j] in old(lp.timeWheel.pending)
  {
    hide CountFor, Sends, Sent, L.LegalRun, L.After, PlayedBy, DeadlineQueue.Tick, Fires;
    ghost var was, c := lp.timeWheel.View(), lp.View(t);
    var fired, sent := lp.Tick();
    TickSplits(was, lp.callback, t);
    played, ops := CollectPlays(fired, sent, lp.callback, t, r, c, CountFor(lp.timeWheel.pending, lp.callback, t), lp.maxRetry, lp.View(t));
  }

  lemma TickSplits(q: Queue<W.Timer>, callback: map<W.Timer, Txid>, t: Txid)
    ensures CountFor(q.pending, callback, t) == CountFor(Fires(q), callback, t) + CountFor(DeadlineQueue.Tick(q).pending, callback, t)
    ensures forall j :: 0 <= j < |DeadlineQueue.Tick(q).pending| ==> DeadlineQueue.Tick(q).pending[j] in q.pending
  {
    CountSplit(q.pending, DueNow(q), callback, t);
    var rest := DeadlineQueue.Tick(q).pending;
    forall j | 0 <= j < |rest| ensures rest[j] in q.pending { Member(q.pending, DueNow(q), rest[j]); }
  }

  /** Each timer fired for t is one retry of the run. */
  method CollectPlays(
    fired: seq<W.Timer>, sent: seq<seq<Sent>>, callback: map<W.Timer, Txid>, t: Txid,
    ghost r: L.Run, ghost c: L.Core, ghost pending: nat, ghost maxRetry: nat, ghost last: L.Core)
    returns (played: seq<seq<Sent>>, ghost ops: seq<L.Op>)
    requires |sent| == |fired| && (forall k :: 0 <= k < |fired| ==> fired[k] in callback)
    requires forall k :: 0 <= k < |fired| && callback[fired[k]] == t ==> sent[k] == Sends(t, last.log, L.Targets(last))
    requires r.c == c && r.timers == pending + CountFor(fired, callback, t) && last == PlayedBy(fired, callback, t, c)
    ensures L.LegalRun(r, ops, maxRetry) && forall k :: 0 <= k < |ops| ==> ops[k] == L.Fire
    ensures var r' := L.After(r, ops, maxRetry);
      r'.c == last && r'.timers == pending && Sent(r, r', t, played)
  {
    hide Sends, Sent, PlayedBy, CountFor;
    played, ops := [], [];
    ghost var now := r;
    SentNothing(r, r, t);
    PlayedByStart(fired, callback);
    PlayedByTargets(fired, callback, t, c);
    assert fired[0..] == fired;
    for i := 0 to |fired|
      invariant L.LegalRun(r, ops, maxRetry) && now == L.After(r, ops, maxRetry)
      invariant forall k :: 0 <= k < |ops| ==> ops[k] == L.Fire
      invariant now.c == PlayedBy(fired[..i], callback, t, c)
      invariant now.timers == pending + CountFor(fired[i..], callback, t)
      invariant Sent(r, now, t, played)
    {
      PlayedByNext(fired, callback, i);
      CountHead(fired[i..], callback, t);
      assert fired[i..][1..] == fired[i + 1..];
      if callback[fired[i]] == t {
        PlayedByTargets(fired[..i], callback, t, c);
        L.AfterSnoc(r, ops, L.Fire, maxRetry);
        ghost var next := L.Next(now, L.Fire, maxRetry);
        SentOne(now, next, t, L.Play(now.c.log, L.Targets(now.c)));
        SentTrans(r, now, next, t, played, [sent[i]]);
        played := played + [sent[i]];
        ops, now := ops + [L.Fire], next;
      }
    }
    assert fired[..|fired|] == fired && fired[|fired|..] == [];
    CountNone(callback, t);
  }

  lemma CountHead(ts: seq<W.Timer>, callback: map<W.Timer, Txid>, t: Txid)
    requires ts != []
    ensures CountFor(ts, callback, t) == (if ts[0] in callback && callback[ts[0]] == t then 1 else 0) + CountFor(ts[1..], callback, t)
  {
  }

  lemma CountNone(callback: map<W.Timer, Txid>, t: Txid)
    ensures CountFor([], callback, t) == 0
  {
  }

  // ---------------------------------------------------------------------
  // Any series of events

  function LoggedCount(events: seq<Event>, t: Txid): nat {
    if events == [] then 0
    else LoggedCount(events[..|events| - 1], t) + if LogsFor(events[|events| - 1], t) then 1 else 0
  }

  predicate LogsFor(e: Event, t: Txid) { e.Logged? && e.txid == t }

  /** All that was logged for t, in order. */
  function LoggedBy(events: seq<Event>, t: Txid): seq<P.Entry> {
    if events == [] then []
    else LoggedBy(events[..|events| - 1], t) + if LogsFor(events[|events| - 1], t) then events[|events| - 1].data else []
  }

  function AckOf(e: Event, t: Txid): set<nat> { if e.Succ? && e.txid == t then {e.id} else {} }

  /** The replicas that have acknowledged t. */
  function AckedBy(events: seq<Event>, t: Txid): set<nat> {
    if events == [] then {} else AckedBy(events[..|events| - 1], t) + AckOf(events[|events| - 1], t)
  }

  /** The run of t has recorded what the events brought. */
  predicate Records(r: L.Run, events: seq<Event>, t: Txid) {
    r.c.log == LoggedBy(events, t) && r.acked == AckedBy(events, t) && r.writes == LoggedCount(events, t)
  }

  lemma RecordsNext(r: L.Run, r': L.Run, events: seq<Event>, i: nat, t: Txid)
    requires i < |events| && Records(r, events[..i], t) && Records1(r, r', events[i], t)
    ensures Records(r', events[..i + 1], t)
  {
    assert events[..i + 1][..i] == events[..i];
  }

  /** What one event adds to the run. */
  predicate Records1(r: L.Run, r': L.Run, e: Event, t: Txid) {
    && r'.c.log == r.c.log + (if LogsFor(e, t) then e.data else [])
    && r'.acked == r.acked + AckOf(e, t)
    && r'.writes == r.writes + if LogsFor(e, t) then 1 else 0
  }

  lemma OneOp(r: L.Run, op: L.Op, maxRetry: nat)
    requires L.Legal(r, op)
    ensures L.LegalRun(r, [op], maxRetry) && L.After(r, [op], maxRetry) == L.Next(r, op, maxRetry)
  {
    assert [op][1..] == [];
  }

  lemma NoOp(r: L.Run, maxRetry: nat)
    ensures L.LegalRun(r, [], maxRetry) && L.After(r, [], maxRetry) == r
  {
  }

  /** What one event may do to the run: nothing but what it stands for. */
  ghost predicate Fitting(e: Event, ops: seq<L.Op>, t: Txid) {
    match e
    case Connected => ops == [L.Connect]
    case Logged(u, data) => ops == if u == t then [L.Write(data)] else []
    case Succ(u, id) => ops == if u == t then [L.Ack(id)] else []
    case Fail(u, id) => ops == [] || (u == t && ops == [L.Fail(id)])
    case Ticked => forall k :: 0 <= k < |ops| ==> ops[k] == L.Fire
  }

  /** So the run's record grows by what the event brought, and it plays only on a
      log or a tick: all that is logged, to all that have not acknowledged. */
  lemma FittingRecords(r: L.Run, e: Event, ops: seq<L.Op>, t: Txid, maxRetry: nat)
    requires L.Inv(r, maxRetry) && L.LegalRun(r, ops, maxRetry) && Fitting(e, ops, t)
    ensures var r' := L.After(r, ops, maxRetry);
      && Records1(r, r', e, t) && L.PlaysFrom(r', |r.plays|) && |r.plays| <= |r'.plays|
      && (|r.plays| < |r'.plays| ==> (e.Ticked? || LogsFor(e, t)) && r'.acked == r.acked)
  {
    hide L.Inv;
    if e.Ticked? {
      hide L.LegalRun, L.After;
      L.FiresPlay(r, ops, maxRetry);
    } else if ops == [] {
    } else {
      assert ops == [ops[0]];
      OneOp(r, ops[0], maxRetry);
      if ops[0].Write? { L.WritePlays(r, ops[0].data, maxRetry); }
    }
  }

  /** One event, seen from transaction t. A failure names a replica of a play:
      any other index is outside the table, and nothing is done for it here. */
  method Handle(lp: LogStore.LogPlayer, e: Event, t: Txid, ghost r: L.Run) returns (played: seq<seq<Sent>>, ghost ops: seq<L.Op>)
    requires lp.Valid() && Stands(lp, t, r, 0)
    modifies lp, lp.timeWheel, lp.timeWheel.pending
    ensures lp.Valid() && L.LegalRun(r, ops, lp.maxRetry) && Fitting(e, ops, t)
    ensures e.Fail? && e.txid == t && e.id < |r.c.retry| ==> ops != []
    ensures Stands(lp, t, L.After(r, ops, lp.maxRetry), 0) && Sent(r, L.After(r, ops, lp.maxRetry), t, played)
    ensures forall j :: 0 <= j < |lp.timeWheel.pending| ==> lp.timeWheel.pending[j] in old(lp.timeWheel.pending) || fresh(lp.timeWheel.pending[j])
  {
    hide CountFor, Sends, Sent, L.LegalRun, L.After;
    assert r.c == lp.View(t);
    hide Stands;
    played, ops := [], [];
    NoOp(r, lp.maxRetry);
    SentNothing(r, r, t);
    match e {
      case Connected =>
        OnConnected(lp, t, r);
        ops := [L.Connect];
        OneOp(r, L.Connect, lp.maxRetry);
        SentNothing(r, L.Next(r, L.Connect, lp.maxRetry), t);
      case Logged(u, data) =>
        played := OnLogged(lp, u, data, t, r);
        if u == t {
          ops := [L.Write(data)];
          OneOp(r, L.Write(data), lp.maxRetry);
        }
      case Succ(u, id) =>
        OnSucc(lp, u, id, t, r);
        if u == t {
          ops := [L.Ack(id)];
          OneOp(r, L.Ack(id), lp.maxRetry);
          SentNothing(r, L.Next(r, L.Ack(id), lp.maxRetry), t);
        }
      case Fail(u, id) =>
        if id < |lp.View(u).retry| {
          OnFail(lp, u, id, t, r);
          if u == t {
            ops := [L.Fail(id)];
            OneOp(r, L.Fail(id), lp.maxRetry);
            SentNothing(r, L.Next(r, L.Fail(id), lp.maxRetry), t);
          }
        }
      case Ticked =>
        played, ops := OnTicked(lp, t, r);
    }
  }

  predicate Reaches(sent: seq<Sent>, x: nat) { exists j :: 0 <= j < |sent| && sent[j].conn == x }

  /** The messages of one play of t, made at event `at`, over n replicas: each
      carries all that was logged by then, and they go to exactly the replicas
      that had not acknowledged. */
  ghost predicate PlayedAt(events: seq<Event>, at: nat, t: Txid, sent: seq<Sent>, n: nat) {
    && at < |events| && (events[at].Ticked? || LogsFor(events[at], t)) && LoggedCount(events[..at + 1], t) > 0
    && (forall j :: 0 <= j < |sent| ==> sent[j].txid == t && sent[j].data == LoggedBy(events[..at + 1], t))
    && forall x: nat :: Reaches(sent, x) <==> x < n && x !in AckedBy(events[..at], t)
  }

  lemma PlayIsAt(r: L.Run, r': L.Run, events: seq<Event>, i: nat, t: Txid, played: seq<seq<Sent>>, k: nat, maxRetry: nat)
    requires i < |events| && Records(r, events[..i], t) && Records(r', events[..i + 1], t) && L.Inv(r', maxRetry)
    requires Sent(r, r', t, played) && L.PlaysFrom(r', |r.plays|) && k < |played|
    requires (events[i].Ticked? || LogsFor(events[i], t)) && r'.acked == r.acked
    ensures PlayedAt(events, i, t, played[k], |r'.c.retry|)
  {
    hide LoggedBy, LoggedCount, AckedBy;
    var play := r'.plays[|r.plays| + k];
    hide Sends;
    SendsAll(t, play.data, play.targets);
    assert r'.writes > 0 && play == L.Play(r'.c.log, L.Unacked(|r'.c.retry|, r'.acked));
    assert played[k] == Sends(t, play.data, play.targets);
    forall x: nat ensures Reaches(played[k], x) <==> x < |r'.c.retry| && x !in r.acked {
      L.UnackedMembers(|r'.c.retry|, r'.acked, x);
      if x in play.targets {
        var j :| 0 <= j < |play.targets| && play.targets[j] == x;
        assert played[k][j].conn == x;
      }
    }
  }

  /** All plays so far, each at its event. */
  ghost predicate PlayedAll(events: seq<Event>, t: Txid, played: seq<seq<Sent>>, at: seq<nat>, n: nat) {
    |at| == |played| && forall k :: 0 <= k < |played| ==> PlayedAt(events, at[k], t, played[k], n)
  }

  /** The plays of one more event. */
  lemma PlayedNext(
    r: L.Run, ops: seq<L.Op>, events: seq<Event>, i: nat, t: Txid, maxRetry: nat,
    played: seq<seq<Sent>>, at: seq<nat>, more: seq<seq<Sent>>)
    requires i < |events| && Records(r, events[..i], t) && L.Inv(r, maxRetry) && |r.plays| == |played|
    requires L.LegalRun(r, ops, maxRetry) && Fitting(events[i], ops, t) && Sent(r, L.After(r, ops, maxRetry), t, more)
    requires PlayedAll(events, t, played, at, |r.c.retry|)
    ensures var r' := L.After(r, ops, maxRetry);
      && Records(r', events[..i + 1], t) && L.Inv(r', maxRetry) && |r'.plays| == |played + more|
      && PlayedAll(events, t, played + more, at + seq(|more|, _ => i), |r'.c.retry|)
  {
    hide L.LegalRun, L.After, Fitting, PlayedAt, Records, Records1, L.PlaysFrom;
    var r' := L.After(r, ops, maxRetry);
    L.AfterOk(r, ops, maxRetry);
    FittingRecords(r, events[i], ops, t, maxRetry);
    RecordsNext(r, r', events, i, t);
    if played != [] { L.ReplicasFixed(r, ops, maxRetry); }
    forall k | 0 <= k < |played + more|
      ensures PlayedAt(events, (at + seq(|more|, _ => i))[k], t, (played + more)[k], |r'.c.retry|)
    {
      if k >= |played| {
        PlayIsAt(r, r', events, i, t, more, k - |played|, maxRetry);
      }
    }
  }

  /** A fresh log player over any series of events: for every transaction t, all
      it plays of t are the plays of a legal run, whose timers are the ones on
      the wheel. Each play is made when t is logged or a timer fires, carries all
      that was logged for t by then, and goes to exactly those replicas of the
      first play that have not acknowledged. One logged transaction is played at
      most once for the log and maxRetry times for each of its replicas. */
  method Drive(lp: LogStore.LogPlayer, events: seq<Event>, t: Txid)
    returns (played: seq<seq<Sent>>, at: seq<nat>, ghost ops: seq<L.Op>)
    requires lp.Valid() && lp.timeWheel.pending == [] && lp.View(t) == L.IDLE.c
    modifies lp, lp.timeWheel
    ensures lp.Valid() && L.LegalRun(L.IDLE, ops, lp.maxRetry)
    ensures var r := L.After(L.IDLE, ops, lp.maxRetry);
      Stands(lp, t, r, 0) && Sent(L.IDLE, r, t, played) && Records(r, events, t)
    ensures PlayedAll(events, t, played, at, |lp.View(t).retry|)
    ensures LoggedCount(events, t) > 0 ==> played != []
    ensures LoggedCount(events, t) <= 1 ==> |played| <= 1 + |lp.View(t).retry| * lp.maxRetry
  {
    hide CountFor, Sends, L.LegalRun, L.After, LoggedCount, LoggedBy, AckedBy, Fitting, PlayedAll, L.Inv;
    played, at, ops := [], [], [];
    NoOp(L.IDLE, lp.maxRetry);
    SentNothing(L.IDLE, L.IDLE, t);
    CountNone(lp.callback, t);
    NothingYet(events, t, |L.IDLE.c.retry|);
    L.IdleOk(lp.maxRetry);
    ghost var r := L.IDLE;
    for i := 0 to |events|
      invariant lp.Valid() && L.LegalRun(L.IDLE, ops, lp.maxRetry) && r == L.After(L.IDLE, ops, lp.maxRetry)
      invariant Stands(lp, t, r, 0) && Sent(L.IDLE, r, t, played) && L.Inv(r, lp.maxRetry)
      invariant Records(r, events[..i], t) && PlayedAll(events, t, played, at, |r.c.retry|)
      invariant forall j :: 0 <= j < |lp.timeWheel.pending| ==> fresh(lp.timeWheel.pending[j])
    {
      var more, next := Handle(lp, events[i], t, r);
      ghost var r' := L.After(r, next, lp.maxRetry);
      PlayedNext(r, next, events, i, t, lp.maxRetry, played, at, more);
      SentTrans(L.IDLE, r, r', t, played, more);
      L.LegalConcat(L.IDLE, ops, next, lp.maxRetry);
      played, at, ops := played + more, at + seq(|more|, _ => i), ops + next;
      r := r';
    }
    assert events[..|events|] == events;
    if LoggedCount(events, t) <= 1 { L.BoundedRetry(ops, lp.maxRetry); }
    if LoggedCount(events, t) > 0 { L.WrittenIsPlayed(r, lp.maxRetry); }
  }

  lemma NothingYet(events: seq<Event>, t: Txid, n: nat)
    ensures Records(L.IDLE, events[..0], t) && PlayedAll(events, t, [], [], n)
  {
  }
}

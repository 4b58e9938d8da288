/** The log store's classes: Dbtl's log table and the LogPlayer with its
    tables, its retry timers on a timing wheel and the transaction that each
    timer will play again. */
module LogStore {
  import opened Bytes
  import P = Participant
  import opened DeadlineQueue
  import W = TimeWheelImpl
  import L = LogPlayer

  type Txid = nat

  const WHEEL_SLOTS := 6000

  datatype Sent = Sent(conn: nat, txid: Txid, data: seq<P.Entry>)

  function Sends(t: Txid, data: seq<P.Entry>, targets: seq<nat>): seq<Sent> {
    seq(|targets|, k requires 0 <= k < |targets| => Sent(targets[k], t, data))
  }

  lemma SendsAll(t: Txid, data: seq<P.Entry>, targets: seq<nat>)
    ensures |Sends(t, data, targets)| == |targets|
    ensures forall k :: 0 <= k < |targets| ==> Sends(t, data, targets)[k] == Sent(targets[k], t, data)
  {
  }

  // ---------------------------------------------------------------------
  // Loops

  /** The loops that build the vector of a DbMsg from the log table. */
  method Copy(log: seq<P.Entry>) returns (data: seq<P.Entry>)
    ensures data == log
  {
    data := [];
    for i := 0 to |log|
      invariant data == log[..i]
    {
      data := data + [P.Entry(log[i].key, log[i].attribute, log[i].value)];
    }
  }

  method FirstTables(n: nat) returns (answer: seq<nat>, retry: seq<nat>)
    ensures answer == L.Range(n) && retry == L.Zeros(n)
  {
    answer, retry := [], seq(n, _ => 0);
    for i := 0 to n
      invariant answer == L.Range(i) && retry == L.Zeros(n)
    {
      answer := answer + [i];
      retry := retry[i := 0];
    }
  }

  method SendTo(t: Txid, data: seq<P.Entry>, targets: seq<nat>, conns: nat) returns (sent: seq<Sent>)
    requires forall k :: 0 <= k < |targets| ==> targets[k] < conns
    ensures sent == Sends(t, data, targets) && |sent| == |targets|
    ensures forall k :: 0 <= k < |targets| ==> sent[k] == Sent(targets[k], t, data)
  {
    sent := [];
    for k := 0 to |targets|
      invariant sent == Sends(t, data, targets)[..k]
    {
      sent := sent + [Sent(targets[k], t, data)];
    }
  }

  /** std::list::remove. */
  method RemoveId(l: seq<nat>, id: nat) returns (r: seq<nat>)
    ensures r == L.Remove(l, id)
  {
    r := [];
    for i := 0 to |l|
      invariant r == L.Remove(l[..i], id)
    {
      assert l[..i + 1] == l[..i] + [l[i]];
      L.RemoveConcat(l[..i], [l[i]], id);
      if l[i] != id { r := r + [l[i]]; }
    }
    assert l[..|l|] == l;
  }

  lemma {:induction false} RemoveMember(l: seq<nat>, id: nat, x: nat)
    ensures x in L.Remove(l, id) <==> x in l && x != id
  {
    if l != [] {
      RemoveMember(l[1..], id, x);
      assert x in l <==> x == l[0] || x in l[1..];
    }
  }

  // ---------------------------------------------------------------------
  // The classes

  function Get<T>(m: map<Txid, seq<T>>, t: Txid): seq<T> {
    if t in m then m[t] else []
  }

  class LogPlayer {
    var dbConns: nat
    var answerTable: map<Txid, seq<nat>>
    var retryTable: map<Txid, seq<nat>>
    var logTable: map<Txid, seq<P.Entry>>       // Dbtl::logTable_
    const timeWheel: W.TimeWheel
    var callback: map<W.Timer, Txid>
    const maxRetry: nat

    ghost predicate Valid()
      reads this, timeWheel, timeWheel.pending
    {
      && timeWheel.Valid() && timeWheel.n == WHEEL_SLOTS
      && (forall k :: 0 <= k < |timeWheel.pending| ==> timeWheel.pending[k] in callback)
      && forall t, i :: t in answerTable && 0 <= i < |answerTable[t]| ==> answerTable[t][i] < dbConns
    }

    function View(t: Txid): L.Core reads this {
      L.Core(dbConns, Get(logTable, t), if t in answerTable then Some(answerTable[t]) else None, Get(retryTable, t))
    }

    constructor (maxRetry: nat, reading: nat)
      ensures Valid() && this.maxRetry == maxRetry && fresh(timeWheel)
      ensures timeWheel.View() == Queue(0, [], map[]) && forall t :: View(t) == L.Core(0, [], None, [])
    {
      this.maxRetry := maxRetry;
      timeWheel := new W.TimeWheel(WHEEL_SLOTS, reading);
      dbConns, answerTable, retryTable, logTable, callback := 0, map[], map[], map[], map[];
    }

    method OnDbConnection()
      requires Valid()
      modifies this`dbConns
      ensures Valid() && forall t :: View(t) == old(View(t)).(conns := old(dbConns) + 1)
    {
      dbConns := dbConns + 1;
    }

    /** playLog. */
    method PlayLog(t: Txid) returns (sent: seq<Sent>)
      requires Valid()
      modifies this`answerTable, this`retryTable
      ensures Valid() && View(t) == L.Played(old(View(t)))
      ensures sent == Sends(t, View(t).log, L.Targets(old(View(t)))) && |sent| == |L.Targets(old(View(t)))|
      ensures forall k :: 0 <= k < |sent| ==> sent[k] == Sent(L.Targets(old(View(t)))[k], t, old(View(t)).log)
      ensures forall u :: u != t ==> View(u) == old(View(u))
    {
      if t !in answerTable {
        var answer, retry := FirstTables(dbConns);
        retryTable := retryTable[t := retry];
        answerTable := answerTable[t := answer];
      }
      var data := Copy(Get(logTable, t));
      sent := SendTo(t, data, answerTable[t], dbConns);
    }

    /** solve, kExecTranSucc. */
    method Succeeded(t: Txid, id: nat)
      requires Valid()
      modifies this`answerTable
      ensures Valid() && View(t) == L.Acked(old(View(t)), id)
      ensures forall u :: u != t ==> View(u) == old(View(u))
    {
      var l := Get(answerTable, t);
      var r := RemoveId(l, id);
      forall i | 0 <= i < |r| ensures r[i] < dbConns { RemoveMember(l, id, r[i]); }
      answerTable := answerTable[t := r];
    }

    /** solve, kExecTranFail: the k-th failure of a replica schedules a play
        after the k-th delay, unless the limit is reached. */
    method Failed(t: Txid, id: nat) returns (timer: W.Timer?)
      requires Valid() && id < |Get(retryTable, t)|
      modifies this`retryTable, this`callback, timeWheel
      ensures Valid() && View(t) == L.Failed(old(View(t)), id)
      ensures forall u :: u != t ==> View(u) == old(View(u))
      ensures var k := View(t).retry[id];
        if k > maxRetry then timer == null && callback == old(callback) && timeWheel.View() == old(timeWheel.View())
        else
          && timer != null && fresh(timer) && callback == old(callback)[timer := t]
          && timeWheel.View() == Add(old(timeWheel.View()), timer, W.Wait(L.Delay(k), WHEEL_SLOTS))
    {
      var time: nat := retryTable[t][id] + 1;
      var counts: seq<nat> := retryTable[t];
      counts := counts[id := time];
      retryTable := retryTable[t := counts];
      timer := null;
      if time <= maxRetry {
        var w := timeWheel.AddTimer(L.Delay(time));
        callback := callback[w := t];
        timer := w;
      }
    }

    /** A play of a transaction that has been played before. */
    function Resent(t: Txid): seq<Sent> reads this {
      Sends(t, View(t).log, L.Targets(View(t)))
    }

    /** These messages carry the log of t, one for each replica yet to answer. */
    predicate SentLog(t: Txid, sent: seq<Sent>) reads this {
      && |sent| == |L.Targets(View(t))|
      && forall j :: 0 <= j < |sent| ==> sent[j] == Sent(L.Targets(View(t))[j], t, View(t).log)
    }

    /** The callbacks of the timers that fired. */
    method PlayAll(fired: seq<W.Timer>) returns (sent: seq<seq<Sent>>)
      requires Valid() && forall k :: 0 <= k < |fired| ==> fired[k] in callback
      modifies this`answerTable, this`retryTable
      ensures Valid() && |sent| == |fired|
      ensures forall k :: 0 <= k < |fired| ==> sent[k] == Resent(callback[fired[k]])
      ensures forall u :: View(u) == PlayedBy(fired, callback, u, old(View(u)))
    {
      hide Sends, W.TimeWheel.Valid, PlayedBy;
      sent := [];
      PlayedByStart(fired, callback);
      for i := 0 to |fired|
        invariant Valid() && |sent| == i
        invariant forall u :: View(u) == PlayedBy(fired[..i], callback, u, old(View(u)))
        invariant forall k :: 0 <= k < i ==> callback[fired[k]] in answerTable && sent[k] == Resent(callback[fired[k]])
      {
        PlayedByNext(fired, callback, i);
        var more := PlayLog(callback[fired[i]]);
        sent := sent + [more];
      }
      assert fired[..|fired|] == fired;
    }

    /** One tick of the wheel: each timer that fires plays its transaction, to
        every replica that has not answered. */
    method Tick() returns (fired: seq<W.Timer>, sent: seq<seq<Sent>>)
      requires Valid()
      modifies this`answerTable, this`retryTable, timeWheel, timeWheel.pending
      ensures Valid() && fired == Fires(old(timeWheel.View())) && timeWheel.View() == DeadlineQueue.Tick(old(timeWheel.View()))
      ensures |sent| == |fired| && forall k :: 0 <= k < |fired| ==> fired[k] in callback && sent[k] == Resent(callback[fired[k]])
      ensures forall k :: 0 <= k < |fired| ==> SentLog(callback[fired[k]], sent[k])
      ensures forall u :: View(u) == PlayedBy(fired, callback, u, old(View(u)))
    {
      hide Sends, W.TimeWheel.Valid, PlayedBy, DeadlineQueue.Tick;
      ghost var was := timeWheel.View();
      fired := timeWheel.Tick();
      forall k | 0 <= k < |fired| ensures fired[k] in callback { Member(was.pending, DueNow(was), fired[k]); }
      sent := PlayAll(fired);
      forall k | 0 <= k < |fired| ensures SentLog(callback[fired[k]], sent[k]) {
        SendsAll(callback[fired[k]], View(callback[fired[k]]).log, L.Targets(View(callback[fired[k]])));
      }
    }

    /** Dbtl::writeToDisk: log the entries, play the log, answer success. */
    method WriteToDisk(t: Txid, data: seq<P.Entry>) returns (sent: seq<Sent>)
      requires Valid()
      modifies this`logTable, this`answerTable, this`retryTable
      ensures Valid()
      ensures var c := old(View(t)).(log := old(View(t)).log + data);
        && View(t) == L.Played(c) && sent == Sends(t, c.log, L.Targets(c)) && |sent| == |L.Targets(c)|
        && forall k :: 0 <= k < |sent| ==> sent[k] == Sent(L.Targets(c)[k], t, c.log)
      ensures forall u :: u != t ==> View(u) == old(View(u))
    {
      for i := 0 to |data|
        invariant Valid() && View(t) == old(View(t)).(log := old(View(t)).log + data[..i])
        invariant forall u :: u != t ==> View(u) == old(View(u))
      {
        logTable := logTable[t := Get(logTable, t) + [P.Entry(data[i].key, data[i].attribute, data[i].value)]];
      }
      sent := PlayLog(t);
    }
  }

  /** A transaction's entry after the plays of the fired timers. */
  ghost function PlayedBy(fired: seq<W.Timer>, callback: map<W.Timer, Txid>, t: Txid, c: L.Core): L.Core {
    if fired == [] then c else
    var before := PlayedBy(fired[..|fired| - 1], callback, t, c);
    var last := fired[|fired| - 1];
    if last in callback && callback[last] == t then L.Played(before) else before
  }

  lemma PlayedByStart(fired: seq<W.Timer>, callback: map<W.Timer, Txid>)
    ensures forall u, c :: PlayedBy(fired[..0], callback, u, c) == c
  {
  }

  /** Playing again changes neither the log nor whom it goes to. */
  lemma {:induction false} PlayedByTargets(fired: seq<W.Timer>, callback: map<W.Timer, Txid>, t: Txid, c: L.Core)
    ensures PlayedBy(fired, callback, t, c).log == c.log && L.Targets(PlayedBy(fired, callback, t, c)) == L.Targets(c)
    decreases |fired|
  {
    if fired != [] { PlayedByTargets(fired[..|fired| - 1], callback, t, c); }
  }

  lemma PlayedByNext(fired: seq<W.Timer>, callback: map<W.Timer, Txid>, i: nat)
    requires i < |fired| && fired[i] in callback
    ensures forall u, c ::
      PlayedBy(fired[..i + 1], callback, u, c) ==
      (if callback[fired[i]] == u then L.Played(PlayedBy(fired[..i], callback, u, c)) else PlayedBy(fired[..i], callback, u, c))
  {
    assert fired[..i + 1][..i] == fired[..i];
  }

  // ---------------------------------------------------------------------
  // Retries on the wheel

  lemma {:induction false} Pow2Mono(a: nat, b: nat)
    requires a <= b
    ensures Pow2(a) <= Pow2(b)
  {
    if a < b { Pow2Mono(a, b - 1); }
  }

  lemma Pow2Of34()
    ensures Pow2(33) == 0x2_0000_0000 && Pow2(34) == 0x4_0000_0000
  {
    assert Pow2(1) == 2;
    hide Pow2;
    Pow2Of32();
    Pow2Add(32, 1);
    Pow2Add(33, 1);
  }

  /** The delay of the k-th retry survives the wheel's 32-bit rotations exactly
      up to the thirty-third. */
  lemma DelayFits(k: nat)
    ensures W.Wait(L.Delay(k), WHEEL_SLOTS) == L.Delay(k) <==> k <= 33
  {
    W.WaitExact(L.Delay(k), WHEEL_SLOTS);
    Pow2Of34();
    if k <= 33 { Pow2Mono(k, 33); } else { Pow2Mono(34, k); }
    assert L.Delay(k) / 6000 < TWO31 <==> L.Delay(k) < 6000 * TWO31;
  }

  /** The k-th retry fires once, with the first tick after exactly 1000 * 2^k
      full ticks, whatever else is added or deleted meanwhile. */
  lemma RetryFiresOnTime(q: Queue<W.Timer>, timer: W.Timer, k: nat, ops: seq<Op<W.Timer>>)
    requires DeadlineQueue.Valid(q) && timer !in q.pending && k <= 33
    requires DeadlineQueue.Legal(Add(q, timer, W.Wait(L.Delay(k), WHEEL_SLOTS)), ops)
    requires forall i :: 0 <= i < |ops| ==> !(!ops[i].Ticked? && ops[i].id == timer)
    ensures Firings(Add(q, timer, W.Wait(L.Delay(k), WHEEL_SLOTS)), ops, timer)
      == if Ticks(ops) > 1000 * Pow2(k) then 1 else 0
  {
    DelayFits(k);
    ApplyValid(q, Added(timer, L.Delay(k)));
    FiresExactlyOnTime(Add(q, timer, L.Delay(k)), ops, timer);
  }
}

/** The timing wheel: slots of timers that carry the rotations they still have
    to wait, updated in place by every tick. It refines the queue of absolute
    deadlines. */
module TimeWheelImpl {
  import opened Bytes
  import opened DeadlineQueue

  /** Conversion to a 32-bit int. */
  function ToInt32(x: int): int {
    var r := x % TWO32;
    if r < TWO31 then r else r - TWO32
  }

  /** Conversion to unsigned long long. */
  function ToUInt64(x: int): nat {
    x % TWO64
  }

  /** int cnt = now - starttime_, the difference being unsigned. */
  function Elapsed(now: int, starttime: nat): int {
    ToInt32(ToUInt64(ToUInt64(now) - starttime))
  }

  predicate SameClock(starttime: nat, clock: nat) {
    starttime % TWO32 == clock % TWO32
  }

  lemma Mod64(x: int)
    ensures ToUInt64(x) % TWO32 == x % TWO32
  {
    DivMod(x, TWO64);
    DivMod(x, TWO32);
    ModUnique(ToUInt64(x), TWO32, x / TWO32 - TWO32 * (x / TWO64), x % TWO32);
  }

  lemma ModSame(x: int, y: int)
    requires (x - y) % TWO32 == 0
    ensures x % TWO32 == y % TWO32
  {
    DivMod(x - y, TWO32);
    DivMod(y, TWO32);
    ModUnique(x, TWO32, y / TWO32 + (x - y) / TWO32, y % TWO32);
  }

  /** Whatever the clock has wrapped, only the true difference counts. */
  lemma ElapsedExact(reading: nat, starttime: nat, clock: nat)
    requires SameClock(starttime, clock)
    ensures Elapsed(ToInt32(reading), starttime) == ToInt32(reading - clock)
    ensures SameClock(ToUInt64(ToInt32(reading)), reading)
  {
    var now := ToInt32(reading);
    assert (now - reading) % TWO32 == 0 by {
      DivMod(reading, TWO32);
      ModUnique(now - reading, TWO32, (if reading % TWO32 < TWO31 then 0 else -1) - reading / TWO32, 0);
    }
    ModSame(now, reading);
    Mod64(now);
    assert (starttime - clock) % TWO32 == 0 by {
      DivMod(starttime, TWO32);
      DivMod(clock, TWO32);
      ModUnique(starttime - clock, TWO32, starttime / TWO32 - clock / TWO32, 0);
    }
    var d := ToUInt64(now) - starttime;
    Mod64(d);
    assert (d - (reading - clock)) % TWO32 == 0 by {
      DivMod(ToUInt64(now), TWO32);
      DivMod(reading, TWO32);
      DivMod(starttime - clock, TWO32);
      ModUnique(d - (reading - clock), TWO32,
        ToUInt64(now) / TWO32 - reading / TWO32 - (starttime - clock) / TWO32, 0);
    }
    ModSame(d, reading - clock);
  }

  // ---------------------------------------------------------------------
  // No drift

  predicate Monotone(first: nat, readings: seq<nat>)
    decreases |readings|
  {
    readings == [] || (first <= readings[0] && Monotone(readings[0], readings[1..]))
  }

  /** Ticks run by takeAllTimeout at each of the readings. */
  function TotalTicks(first: nat, readings: seq<nat>): nat
    decreases |readings|
  {
    if readings == [] then 0
    else Turns(ToInt32(readings[0] - first)) + TotalTicks(readings[0], readings[1..])
  }

  function LastReading(first: nat, readings: seq<nat>): nat {
    if readings == [] then first else readings[|readings| - 1]
  }

  predicate GapsFit(first: nat, readings: seq<nat>)
    decreases |readings|
  {
    readings == [] || (readings[0] - first < TWO31 && GapsFit(readings[0], readings[1..]))
  }

  /** With a monotone clock the ticks never run ahead of it, and they total
      exactly the time since construction if and only if every gap between two
      readings fits an int. */
  lemma {:induction false} NoDrift(first: nat, readings: seq<nat>)
    requires Monotone(first, readings)
    ensures TotalTicks(first, readings) <= LastReading(first, readings) - first
    ensures TotalTicks(first, readings) == LastReading(first, readings) - first <==> GapsFit(first, readings)
    decreases |readings|
  {
    if readings != [] {
      NoDrift(readings[0], readings[1..]);
    }
  }

  lemma SeriesStart<T>(first: nat, readings: seq<nat>, q: Queue<T>)
    ensures TotalTicks(first, readings[..0]) == 0 && TickN(q, 0) == q && FiresN(q, 0) == []
  {
  }

  /** One more reading adds the ticks of its gap. */
  lemma {:induction false} SeriesNext(first: nat, readings: seq<nat>, i: nat)
    requires i < |readings|
    ensures LastReading(first, readings[..i + 1]) == readings[i]
    ensures TotalTicks(first, readings[..i + 1])
      == TotalTicks(first, readings[..i]) + Turns(ToInt32(readings[i] - LastReading(first, readings[..i])))
    decreases i
  {
    if i == 0 {
      assert readings[..1][1..] == [];
    } else {
      var rest := readings[1..];
      SeriesNext(readings[0], rest, i - 1);
      assert readings[..i + 1][1..] == rest[..i] && readings[..i][1..] == rest[..i - 1];
      assert LastReading(first, readings[..i]) == LastReading(readings[0], rest[..i - 1]);
    }
  }

  /** A single longer gap runs no tick at all. */
  lemma LongGapLosesTicks()
    ensures TotalTicks(0, [TWO31]) == 0
  {
    assert TotalTicks(TWO31, [TWO31][1..]) == 0;
  }

  /** Full turns still to wait: none for a negative count. */
  function Turns(rotations: int): nat {
    if rotations > 0 then rotations else 0
  }

  /** How many ticks a new timer waits before the one that fires it: slot and
      rotations are derived from the timeout, the rotations narrowed to int,
      and a negative rotation count fires like zero. */
  function Wait(timeout: nat, n: nat): nat
    requires n > 0
  {
    timeout % n + n * Turns(ToInt32(timeout / n))
  }

  lemma MulOrder(n: nat, a: nat, b: nat)
    requires n > 0
    ensures a <= b <==> n * a <= n * b
    ensures a == b <==> n * a == n * b
  {
    if a < b { MulMono(n, a, b - 1); assert n * (b - 1) == n * b - n; }
    if b < a { MulMono(n, b, a - 1); assert n * (a - 1) == n * a - n; }
  }

  /** The wait is the timeout exactly if the full rotations fit an int. */
  lemma WaitExact(timeout: nat, n: nat)
    requires n > 0
    ensures Wait(timeout, n) == timeout <==> timeout / n < TWO31
  {
    var r := timeout / n;
    DivMod(timeout, n);
    MulOrder(n, Turns(ToInt32(r)), r);
  }

  /** Beyond that it is not: on the log player's wheel this timeout of some 408
      years fires with the next tick. */
  lemma LongWaitIsLost()
    ensures Wait(6000 * TWO31, 6000) == 0
  {
    ModUnique(6000 * TWO31, 6000, TWO31, 0);
  }

  /** Index of the slot that a timer goes to. */
  function SlotFor(cur: nat, timeout: nat, n: nat): nat
    requires n > 0
  {
    (cur + timeout % n) % n
  }

  class Timer {
    var rotations: int
    const slot: nat

    constructor (rotations: int, slot: nat)
      ensures this.rotations == rotations && this.slot == slot
    {
      this.rotations, this.slot := rotations, slot;
    }
  }

  /** The timers of one slot, in the order of adding. */
  function OfSlot(s: seq<Timer>, k: nat): seq<Timer> {
    if s == [] then [] else if s[0].slot == k then [s[0]] + OfSlot(s[1..], k) else OfSlot(s[1..], k)
  }

  lemma {:induction false} OfSlotAppend(s: seq<Timer>, t: Timer, k: nat)
    ensures OfSlot(s + [t], k) == if t.slot == k then OfSlot(s, k) + [t] else OfSlot(s, k)
  {
    if s != [] {
      assert (s + [t])[1..] == s[1..] + [t];
      OfSlotAppend(s[1..], t, k);
    }
  }

  lemma {:induction false} OfSlotMember(s: seq<Timer>, k: nat, t: Timer)
    ensures t in OfSlot(s, k) <==> t in s && t.slot == k
  {
    if s != [] {
      OfSlotMember(s[1..], k, t);
      assert t in s <==> t == s[0] || t in s[1..];
    }
  }

  lemma {:induction false} OfSlotWithout(s: seq<Timer>, gone: set<Timer>, k: nat)
    ensures OfSlot(Without(s, gone), k) == Without(OfSlot(s, k), gone)
  {
    if s != [] {
      var rest := s[1..];
      OfSlotWithout(rest, gone, k);
      assert ([s[0]] + Without(rest, gone))[1..] == Without(rest, gone);
      assert ([s[0]] + OfSlot(rest, k))[1..] == OfSlot(rest, k);
    }
  }

  /** All of the selected timers are in one slot: selecting there is enough. */
  lemma {:induction false} OfSlotWithin(s: seq<Timer>, gone: set<Timer>, k: nat)
    requires forall t :: t in gone ==> t.slot == k
    ensures Within(OfSlot(s, k), gone) == Within(s, gone)
  {
    if s != [] {
      OfSlotWithin(s[1..], gone, k);
      assert ([s[0]] + OfSlot(s[1..], k))[1..] == OfSlot(s[1..], k);
    }
  }

  lemma {:induction false} OfSlotDistinct(s: seq<Timer>, k: nat)
    requires Distinct(s)
    ensures Distinct(OfSlot(s, k))
  {
    if s != [] {
      OfSlotDistinct(s[1..], k);
      OfSlotMember(s[1..], k, s[0]);
    }
  }

  lemma OtherSlot(s: seq<Timer>, gone: set<Timer>, k: nat, cur: nat)
    requires k != cur && forall t :: t in gone ==> t.slot == cur
    ensures OfSlot(Without(s, gone), k) == OfSlot(s, k)
  {
    OfSlotWithout(s, gone, k);
    forall t | t in OfSlot(s, k) ensures t !in gone { OfSlotMember(s, k, t); }
    WithoutNothing(OfSlot(s, k), gone);
  }

  class TimeWheel {
    const n: nat
    var curslot: nat
    var slots: seq<seq<Timer>>
    var starttime: nat
    ghost var clock: nat                 // the reading that starttime came from
    ghost var now: nat
    ghost var pending: seq<Timer>
    ghost var due: map<Timer, nat>

    /** A timer's due time is what its slot and its rotations say. */
    ghost predicate OnTime(t: Timer) reads this, t {
      t.slot < n && t in due && due[t] == now + Remaining(n, curslot, t.slot, t.rotations)
    }

    ghost predicate Shape() reads this {
      && curslot < n == |slots|
      && Distinct(pending)
      && forall k :: 0 <= k < n ==> slots[k] == OfSlot(pending, k)
    }

    ghost predicate Valid() reads this, pending {
      Shape() && SameClock(starttime, clock) && forall t :: t in pending ==> OnTime(t)
    }

    ghost function View(): Queue<Timer> reads this {
      Queue(now, pending, due)
    }

    constructor (nslots: nat, reading: nat)
      requires nslots > 0
      ensures Valid() && n == nslots && View() == Queue(0, [], map[]) && clock == reading
    {
      n := nslots;
      starttime, clock := reading, reading;
      curslot := 0;
      slots := seq(nslots, _ => []);
      now, pending, due := 0, [], map[];
    }

    method AddTimer(timeout: nat) returns (timer: Timer)
      requires Valid()
      modifies this
      ensures Valid() && fresh(timer)
      ensures View() == Add(old(View()), timer, Wait(timeout, n)) && clock == old(clock)
    {
      var slot := SlotFor(curslot, timeout, n);
      SlotAhead(curslot, timeout, n);
      timer := new Timer(ToInt32(timeout / n), slot);
      forall k | 0 <= k < n ensures OfSlot(pending + [timer], k) == if k == slot then slots[k] + [timer] else slots[k] {
        OfSlotAppend(pending, timer, k);
      }
      slots := slots[slot := slots[slot] + [timer]];
      pending := pending + [timer];
      due := due[timer := now + Wait(timeout, n)];
    }

    /** A null timer is ignored, and so is one that is no longer pending. */
    method DelTimer(timer: Timer?)
      requires Valid() && (timer != null ==> timer.slot < n)
      modifies this
      ensures Valid()
      ensures View() == (if timer == null then old(View()) else Delete(old(View()), timer)) && clock == old(clock)
    {
      if timer == null { return; }
      var t: Timer := timer;
      var l := slots[t.slot];
      OfSlotDistinct(pending, t.slot);
      var i := Find(l, t);
      DeleteSlots(t, i);
      if i < |l| {
        slots := slots[t.slot := l[..i] + l[i + 1..]];
      }
      pending := Without(pending, {t});
    }

    lemma DeleteSlots(t: Timer, i: nat)
      requires Shape() && t.slot < n && i <= |slots[t.slot]| && t !in slots[t.slot][..i]
      requires i < |slots[t.slot]| ==> slots[t.slot][i] == t
      ensures var l := slots[t.slot];
        && Distinct(Without(pending, {t})) && (forall u :: u in Without(pending, {t}) ==> u in pending)
        && (forall k :: 0 <= k < n && k != t.slot ==> OfSlot(Without(pending, {t}), k) == slots[k])
        && OfSlot(Without(pending, {t}), t.slot) == if i < |l| then l[..i] + l[i + 1..] else l
    {
      var l := slots[t.slot];
      forall k | 0 <= k < n && k != t.slot ensures OfSlot(Without(pending, {t}), k) == slots[k] {
        OtherSlot(pending, {t}, k, t.slot);
      }
      OfSlotWithout(pending, {t}, t.slot);
      WithoutDistinct(pending, {t});
      forall u | u in Without(pending, {t}) ensures u in pending { Member(pending, {t}, u); }
      OfSlotDistinct(pending, t.slot);
      if i < |l| {
        WithoutAt(l, i);
      } else {
        assert l[..i] == l;
        WithoutNothing(l, {t});
      }
    }

    method Tick() returns (fired: seq<Timer>)
      requires Valid()
      modifies this, pending
      ensures Valid() && clock == old(clock)
      ensures View() == DeadlineQueue.Tick(old(View())) && fired == Fires(old(View()))
      ensures forall i :: 0 <= i < |pending| ==> pending[i] in old(pending)
    {
      hide Within, Without, OfSlot, Remaining, Distinct;
      ghost var gone := DueNow(View());
      DueIsHere();
      TickSlots(gone);
      assert forall i :: 0 <= i < |slots[curslot]| ==> slots[curslot][i] in pending;
      var rest;
      rest, fired := RunSlot(slots[curslot], gone);
      slots := slots[curslot := rest];
      forall t | t in Without(pending, gone)
        ensures t in pending && t.slot < n && due[t] == now + 1 + Remaining(n, (curslot + 1) % n, t.slot, t.rotations)
      {
        Member(pending, gone, t);
        OfSlotMember(pending, curslot, t);
        NextTurn(n, curslot, t.slot, old(t.rotations), now, due[t]);
      }
      curslot := curslot + 1;
      curslot := curslot % n;
      now, pending := now + 1, Without(pending, gone);
    }

    /** takeAllTimeout at a clock reading: as many ticks as the narrowed
        difference to the last reading says. */
    method TakeAllTimeout(reading: nat) returns (fired: seq<Timer>)
      requires Valid()
      modifies this, pending
      ensures Valid() && clock == reading
      ensures var k := Turns(ToInt32(reading - old(clock)));
        View() == TickN(old(View()), k) && fired == FiresN(old(View()), k)
      ensures forall j :: 0 <= j < |pending| ==> pending[j] in old(pending)
    {
      var now32 := ToInt32(reading);
      var cnt := Elapsed(now32, starttime);
      ElapsedExact(reading, starttime, clock);
      fired := [];
      for i := 0 to Turns(cnt)
        invariant Valid() && clock == old(clock)
        invariant View() == TickN(old(View()), i) && fired == FiresN(old(View()), i)
        invariant forall j :: 0 <= j < |pending| ==> pending[j] in old(pending)
      {
        var f := Tick();
        fired := fired + f;
      }
      starttime, clock := ToUInt64(now32), reading;
    }

    /** The loop of start, for the clock readings of any number of wake-ups: the
        wheel runs the total of their ticks, and with a monotone clock its time
        advances by the time on the clock if and only if every gap fits. */
    method Start(readings: seq<nat>) returns (fired: seq<Timer>)
      requires Valid()
      modifies this, pending
      ensures Valid() && clock == LastReading(old(clock), readings)
      ensures var k := TotalTicks(old(clock), readings);
        View() == TickN(old(View()), k) && fired == FiresN(old(View()), k)
      ensures Monotone(old(clock), readings) ==>
        (now - old(now) == clock - old(clock) <==> GapsFit(old(clock), readings))
    {
      hide TotalTicks, TickN, FiresN, Monotone, GapsFit;
      ghost var q, first := View(), clock;
      fired := [];
      SeriesStart(first, readings, q);
      for i := 0 to |readings|
        invariant Valid() && clock == LastReading(first, readings[..i])
        invariant View() == TickN(q, TotalTicks(first, readings[..i]))
        invariant fired == FiresN(q, TotalTicks(first, readings[..i]))
        invariant forall j :: 0 <= j < |pending| ==> pending[j] in old(pending)
      {
        ghost var done, k := TotalTicks(first, readings[..i]), Turns(ToInt32(readings[i] - clock));
        SeriesNext(first, readings, i);
        TicksAdd(q, done, k);
        var more := TakeAllTimeout(readings[i]);
        fired := fired + more;
      }
      assert readings[..|readings|] == readings;
      TicksNow(q, TotalTicks(first, readings));
      if Monotone(first, readings) { NoDrift(first, readings); }
    }

    lemma TickSlots(gone: set<Timer>)
      requires Shape() && forall t :: t in gone ==> t.slot == curslot
      ensures Distinct(slots[curslot]) && Distinct(Without(pending, gone))
      ensures Within(slots[curslot], gone) == Within(pending, gone)
      ensures OfSlot(Without(pending, gone), curslot) == Without(slots[curslot], gone)
      ensures forall k :: 0 <= k < n && k != curslot ==> OfSlot(Without(pending, gone), k) == slots[k]
    {
      OfSlotDistinct(pending, curslot);
      WithoutDistinct(pending, gone);
      OfSlotWithin(pending, gone, curslot);
      OfSlotWithout(pending, gone, curslot);
      forall k | 0 <= k < n && k != curslot ensures OfSlot(Without(pending, gone), k) == slots[k] {
        OtherSlot(pending, gone, k, curslot);
      }
    }

    /** What is due now is in the current slot with no rotations left. */
    lemma DueIsHere()
      requires Valid()
      ensures forall t :: t in DueNow(View()) ==> t.slot == curslot
      ensures forall t :: t in slots[curslot] ==> t in pending && (t in DueNow(View()) <==> t.rotations <= 0)
    {
      forall t | t in pending ensures due[t] == now <==> t.slot == curslot && t.rotations <= 0 {
        MulOrder(n, 0, Turns(t.rotations));
      }
      forall t | t in slots[curslot] ensures t in pending && t.slot == curslot {
        OfSlotMember(pending, curslot, t);
      }
    }
  }

  /** After j timers of l: what is kept so far, then what is still to come. */
  ghost predicate Progress(l: seq<Timer>, gone: set<Timer>, j: nat, slot: seq<Timer>, i: nat, fired: seq<Timer>) {
    && j <= |l| && i <= |slot| && slot[i..] == l[j..]
    && slot[..i] == Without(l[..j], gone) && fired == Within(l[..j], gone)
  }

  lemma ProgressAt(l: seq<Timer>, gone: set<Timer>, j: nat, slot: seq<Timer>, i: nat, fired: seq<Timer>)
    requires Progress(l, gone, j, slot, i, fired)
    ensures if i < |slot| then j < |l| && slot[i] == l[j] else j == |l| && slot == Without(l, gone) && fired == Within(l, gone)
  {
    if i < |slot| {
      assert slot[i] == slot[i..][0];
    } else {
      assert l[..j] == l && slot[..i] == slot;
    }
  }

  lemma ProgressStep(l: seq<Timer>, gone: set<Timer>, j: nat, slot: seq<Timer>, i: nat, fired: seq<Timer>)
    requires Progress(l, gone, j, slot, i, fired) && i < |slot| && j < |l|
    ensures if l[j] in gone then Progress(l, gone, j + 1, slot[..i] + slot[i + 1..], i, fired + [slot[i]])
      else Progress(l, gone, j + 1, slot, i + 1, fired)
  {
    SelectNext(l, j, gone);
    assert slot[i] == slot[i..][0] == l[j];
    assert slot[i + 1..] == slot[i..][1..] == l[j + 1..];
    assert slot[..i + 1] == slot[..i] + [slot[i]];
  }

  /** The loop of tick over the current slot: a timer with rotations left loses
      one, any other fires and is erased. */
  method RunSlot(l: seq<Timer>, ghost gone: set<Timer>) returns (slot: seq<Timer>, fired: seq<Timer>)
    requires Distinct(l) && forall t :: t in l ==> (t in gone <==> t.rotations <= 0)
    modifies l
    ensures slot == Without(l, gone) && fired == Within(l, gone)
    ensures forall t :: t in l && t !in gone ==> t.rotations == old(t.rotations) - 1
  {
    ghost var j := 0;
    var i := 0;
    slot, fired := l, [];
    assert Progress(l, gone, j, slot, i, fired);
    hide Within, Without, Progress;
    while i < |slot|
      invariant i <= |slot| && j <= |l| && Progress(l, gone, j, slot, i, fired)
      invariant forall m :: j <= m < |l| ==> l[m].rotations == old(l[m].rotations)
      invariant forall m :: 0 <= m < j && l[m] !in gone ==> l[m].rotations == old(l[m].rotations) - 1
      decreases |slot| - i
    {
      ProgressAt(l, gone, j, slot, i, fired);
      ProgressStep(l, gone, j, slot, i, fired);
      var timer := slot[i];
      if timer.rotations > 0 {
        timer.rotations := timer.rotations - 1;
        i := i + 1;
      } else {
        fired := fired + [timer];
        slot := slot[..i] + slot[i + 1..];
      }
      j := j + 1;
    }
    ProgressAt(l, gone, j, slot, i, fired);
  }

  method Find(l: seq<Timer>, timer: Timer) returns (i: nat)
    ensures i <= |l| && timer !in l[..i] && (i < |l| ==> l[i] == timer)
  {
    i := 0;
    while i < |l| && l[i] != timer
      invariant i <= |l| && timer !in l[..i]
    {
      i := i + 1;
    }
  }

  lemma WithoutAt(l: seq<Timer>, i: nat)
    requires i < |l| && Distinct(l)
    ensures Without(l, {l[i]}) == l[..i] + l[i + 1..]
  {
    var a := {l[i]};
    assert l == l[..i] + ([l[i]] + l[i + 1..]);
    WithoutConcat(l[..i], [l[i]] + l[i + 1..], a);
    WithoutConcat([l[i]], l[i + 1..], a);
    WithoutNothing(l[..i], a);
    WithoutNothing(l[i + 1..], a);
  }

  lemma SelectNext(l: seq<Timer>, j: nat, a: set<Timer>)
    requires j < |l|
    ensures Within(l[..j + 1], a) == if l[j] in a then Within(l[..j], a) + [l[j]] else Within(l[..j], a)
    ensures Without(l[..j + 1], a) == if l[j] in a then Without(l[..j], a) else Without(l[..j], a) + [l[j]]
  {
    assert l[..j + 1] == l[..j] + [l[j]];
    WithinConcat(l[..j], [l[j]], a);
    WithoutConcat(l[..j], [l[j]], a);
  }

  /** Ticks until a timer fires: the way to its slot plus full turns. */
  function Remaining(n: nat, cur: nat, slot: nat, rotations: int): int {
    (if slot >= cur then slot - cur else slot + n - cur) + n * Turns(rotations)
  }

  /** A tick that does not fire a timer keeps its due time. */
  lemma NextTurn(n: nat, cur: nat, slot: nat, rotations: int, now: nat, due: int)
    requires cur < n && slot < n && due == now + Remaining(n, cur, slot, rotations) && due != now
    ensures due == now + 1 + Remaining(n, (cur + 1) % n, slot, if slot == cur then rotations - 1 else rotations)
  {
    NextSlot(n, cur);
    if slot == cur {
      assert rotations > 0 by { MulOrder(n, Turns(rotations), 0); }
      OneTurnLess(n, rotations);
    }
  }

  lemma NextSlot(n: nat, cur: nat)
    requires cur < n
    ensures (cur + 1) % n == if cur + 1 < n then cur + 1 else 0
  {
    if cur + 1 < n { ModUnique(cur + 1, n, 0, cur + 1); } else { ModUnique(cur + 1, n, 1, 0); }
  }

  lemma OneTurnLess(n: nat, rotations: int)
    requires rotations > 0
    ensures n * Turns(rotations - 1) == n * Turns(rotations) - n
  {
  }

  lemma SlotAhead(cur: nat, timeout: nat, n: nat)
    requires cur < n
    ensures var s := SlotFor(cur, timeout, n);
      s < n && timeout % n == if s >= cur then s - cur else s + n - cur
  {
    var x := cur + timeout % n;
    if x < n { ModUnique(x, n, 0, x); } else { ModUnique(x, n, 1, x - n); }
  }
}

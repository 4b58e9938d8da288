/** A plain queue of absolute deadlines, which the timing wheel refines: every
    pending timer has a due time, and each tick fires what is due now. */
module DeadlineQueue {
  import opened Bytes

  /** Pending timers in the order they were added. */
  datatype Queue<T> = Queue(now: nat, pending: seq<T>, due: map<T, nat>)

  function Within<T>(s: seq<T>, a: set<T>): seq<T> {
    if s == [] then [] else if s[0] in a then [s[0]] + Within(s[1..], a) else Within(s[1..], a)
  }

  function Without<T>(s: seq<T>, a: set<T>): seq<T> {
    if s == [] then [] else if s[0] in a then Without(s[1..], a) else [s[0]] + Without(s[1..], a)
  }

  predicate Distinct<T(==)>(s: seq<T>) {
    forall i, j :: 0 <= i < j < |s| ==> s[i] != s[j]
  }

  /** Every pending timer is due now or later. */
  predicate Valid<T(==)>(q: Queue<T>) {
    Distinct(q.pending) && forall t :: t in q.pending ==> t in q.due && q.due[t] >= q.now
  }

  function Add<T(==)>(q: Queue<T>, t: T, timeout: nat): Queue<T> {
    q.(pending := q.pending + [t], due := q.due[t := q.now + timeout])
  }

  function Delete<T(==)>(q: Queue<T>, t: T): Queue<T> {
    q.(pending := Without(q.pending, {t}))
  }

  function DueNow<T(==)>(q: Queue<T>): set<T> {
    set t | t in q.pending && t in q.due && q.due[t] == q.now
  }

  function Tick<T(==)>(q: Queue<T>): Queue<T> {
    Queue(q.now + 1, Without(q.pending, DueNow(q)), q.due)
  }

  /** What a tick fires, in the order of adding. */
  function Fires<T(==)>(q: Queue<T>): seq<T> {
    Within(q.pending, DueNow(q))
  }

  function TickN<T(==)>(q: Queue<T>, k: nat): Queue<T> {
    if k == 0 then q else Tick(TickN(q, k - 1))
  }

  function FiresN<T(==)>(q: Queue<T>, k: nat): seq<T> {
    if k == 0 then [] else FiresN(q, k - 1) + Fires(TickN(q, k - 1))
  }

  lemma {:induction false} TicksAdd<T>(q: Queue<T>, a: nat, b: nat)
    ensures TickN(q, a + b) == TickN(TickN(q, a), b)
    ensures FiresN(q, a + b) == FiresN(q, a) + FiresN(TickN(q, a), b)
    decreases b
  {
    hide Tick, Fires;
    if b > 0 { TicksAdd(q, a, b - 1); }
  }

  lemma {:induction false} TicksNow<T>(q: Queue<T>, k: nat)
    ensures TickN(q, k).now == q.now + k
    decreases k
  {
    if k > 0 { TicksNow(q, k - 1); }
  }

  // ---------------------------------------------------------------------
  // Selections

  lemma {:induction false} Member<T>(s: seq<T>, a: set<T>, t: T)
    ensures t in Within(s, a) <==> t in s && t in a
    ensures t in Without(s, a) <==> t in s && t !in a
  {
    if s != [] {
      Member(s[1..], a, t);
      assert t in s <==> t == s[0] || t in s[1..];
    }
  }

  lemma WithinMembers<T>(s: seq<T>, a: set<T>)
    ensures forall t <- s :: t in Within(s, a) <==> t in a
    ensures forall t <- s :: t in Without(s, a) <==> t !in a
    ensures forall t <- Within(s, a) :: t in s && t in a
    ensures forall t <- Without(s, a) :: t in s && t !in a
  {
    forall t ensures t in Within(s, a) <==> t in s && t in a { Member(s, a, t); }
    forall t ensures t in Without(s, a) <==> t in s && t !in a { Member(s, a, t); }
  }

  lemma {:induction false} WithoutDistinct<T>(s: seq<T>, a: set<T>)
    requires Distinct(s)
    ensures Distinct(Without(s, a)) && Distinct(Within(s, a))
  {
    if s != [] {
      WithoutDistinct(s[1..], a);
      WithinMembers(s[1..], a);
    }
  }

  lemma {:induction false} WithinConcat<T>(s: seq<T>, u: seq<T>, a: set<T>)
    ensures Within(s + u, a) == Within(s, a) + Within(u, a)
  {
    if s == [] {
      assert s + u == u;
    } else {
      assert (s + u)[1..] == s[1..] + u;
      WithinConcat(s[1..], u, a);
    }
  }

  lemma {:induction false} WithoutConcat<T>(s: seq<T>, u: seq<T>, a: set<T>)
    ensures Without(s + u, a) == Without(s, a) + Without(u, a)
  {
    if s == [] {
      assert s + u == u;
    } else {
      assert (s + u)[1..] == s[1..] + u;
      WithoutConcat(s[1..], u, a);
    }
  }

  lemma {:induction false} WithoutNothing<T>(s: seq<T>, a: set<T>)
    requires forall t :: t in s ==> t !in a
    ensures Without(s, a) == s && Within(s, a) == []
  {
    if s != [] { WithoutNothing(s[1..], a); }
  }

  // ---------------------------------------------------------------------
  // A timer fires once, at its time

  datatype Op<T> = Added(id: T, timeout: nat) | Deleted(id: T) | Ticked

  function Apply<T(==)>(q: Queue<T>, op: Op<T>): Queue<T> {
    match op
    case Added(t, k) => Add(q, t, k)
    case Deleted(t) => Delete(q, t)
    case Ticked => Tick(q)
  }

  /** Timers are objects: an added one is new. */
  predicate Legal<T(==)>(q: Queue<T>, ops: seq<Op<T>>)
    decreases |ops|
  {
    ops == [] || ((ops[0].Added? ==> ops[0].id !in q.pending) && Legal(Apply(q, ops[0]), ops[1..]))
  }

  function Ticks<T>(ops: seq<Op<T>>): nat {
    if ops == [] then 0 else (if ops[0].Ticked? then 1 else 0) + Ticks(ops[1..])
  }

  /** How often t fires in the course of the operations. */
  function Firings<T(==)>(q: Queue<T>, ops: seq<Op<T>>, t: T): nat
    decreases |ops|
  {
    if ops == [] then 0
    else multiset(if ops[0].Ticked? then Fires(q) else [])[t] + Firings(Apply(q, ops[0]), ops[1..], t)
  }

  lemma {:induction false} DistinctCount<T>(s: seq<T>, t: T)
    requires Distinct(s)
    ensures multiset(s)[t] == if t in s then 1 else 0
  {
    if s != [] {
      assert s == [s[0]] + s[1..];
      DistinctCount(s[1..], t);
    }
  }

  lemma ApplyValid<T>(q: Queue<T>, op: Op<T>)
    requires Valid(q) && (op.Added? ==> op.id !in q.pending)
    ensures Valid(Apply(q, op))
  {
    var q' := Apply(q, op);
    match op
    case Added(t, k) =>
      forall u | u in q'.pending ensures u in q'.due && q'.due[u] >= q'.now {
        assert u == t || u in q.pending;
      }
    case Deleted(t) =>
      WithinMembers(q.pending, {t});
      WithoutDistinct(q.pending, {t});
      forall u | u in q'.pending ensures u in q'.due && q'.due[u] >= q'.now {
        Member(q.pending, {t}, u);
      }
    case Ticked =>
      WithinMembers(q.pending, DueNow(q));
      WithoutDistinct(q.pending, DueNow(q));
      forall u | u in q'.pending ensures u in q'.due && q'.due[u] >= q'.now {
        Member(q.pending, DueNow(q), u);
      }
  }

  lemma FiresOnce<T>(q: Queue<T>, t: T)
    requires Valid(q)
    ensures multiset(Fires(q))[t] == if t in q.pending && q.due[t] == q.now then 1 else 0
    ensures t in Tick(q).pending <==> t in q.pending && q.due[t] != q.now
  {
    WithinMembers(q.pending, DueNow(q));
    WithoutDistinct(q.pending, DueNow(q));
    DistinctCount(Fires(q), t);
  }

  /** A timer that is not pending and not added does not fire. */
  lemma {:induction false} AbsentNeverFires<T>(q: Queue<T>, ops: seq<Op<T>>, t: T)
    requires Valid(q) && Legal(q, ops) && t !in q.pending
    requires forall k :: 0 <= k < |ops| ==> !(ops[k].Added? && ops[k].id == t)
    ensures Firings(q, ops, t) == 0
    decreases |ops|
  {
    if ops != [] {
      ApplyValid(q, ops[0]);
      if ops[0].Ticked? { FiresOnce(q, t); }
      if ops[0].Deleted? { WithinMembers(q.pending, {ops[0].id}); }
      AbsentNeverFires(Apply(q, ops[0]), ops[1..], t);
    }
  }

  /** A deleted timer does not fire any more, whether it was pending or not, and
      no other timer goes with it. */
  lemma DeletedNeverFires<T>(q: Queue<T>, ops: seq<Op<T>>, t: T)
    requires Valid(q) && Legal(Delete(q, t), ops)
    requires forall k :: 0 <= k < |ops| ==> !(ops[k].Added? && ops[k].id == t)
    ensures Firings(Delete(q, t), ops, t) == 0
    ensures forall u :: u in Delete(q, t).pending <==> u in q.pending && u != t
  {
    ApplyValid(q, Deleted(t));
    forall u ensures u in Delete(q, t).pending <==> u in q.pending && u != t { Member(q.pending, {t}, u); }
    AbsentNeverFires(Delete(q, t), ops, t);
  }

  /** A pending timer that nobody deletes fires exactly once, with the tick at
      its due time: within any number of operations it has fired if and only if
      more than due - now of them were ticks. */
  lemma {:induction false} FiresExactlyOnTime<T>(q: Queue<T>, ops: seq<Op<T>>, t: T)
    requires Valid(q) && Legal(q, ops) && t in q.pending
    requires forall k :: 0 <= k < |ops| ==> !(!ops[k].Ticked? && ops[k].id == t)
    ensures Firings(q, ops, t) == if Ticks(ops) > q.due[t] - q.now then 1 else 0
    decreases |ops|
  {
    if ops != [] {
      var q' := Apply(q, ops[0]);
      ApplyValid(q, ops[0]);
      if ops[0].Ticked? { FiresOnce(q, t); }
      if ops[0].Deleted? { WithinMembers(q.pending, {ops[0].id}); }
      if t in q'.pending {
        FiresExactlyOnTime(q', ops[1..], t);
      } else {
        AbsentNeverFires(q', ops[1..], t);
      }
    }
  }

  // ---------------------------------------------------------------------
  // In which order timers fire

  predicate Before<T(==)>(s: seq<T>, a: T, b: T) {
    exists i, j :: 0 <= i < j < |s| && s[i] == a && s[j] == b
  }

  lemma BeforeJoin<T>(s: seq<T>, u: seq<T>, a: T, b: T)
    requires (a in s && b in u) || Before(s, a, b) || Before(u, a, b)
    ensures Before(s + u, a, b)
  {
    if Before(s, a, b) {
      var i, j :| 0 <= i < j < |s| && s[i] == a && s[j] == b;
      assert (s + u)[i] == a && (s + u)[j] == b;
    } else if Before(u, a, b) {
      var i, j :| 0 <= i < j < |u| && u[i] == a && u[j] == b;
      assert (s + u)[|s| + i] == a && (s + u)[|s| + j] == b;
    } else {
      var i :| 0 <= i < |s| && s[i] == a;
      var j :| 0 <= j < |u| && u[j] == b;
      assert (s + u)[i] == a && (s + u)[|s| + j] == b;
    }
  }

  lemma BeforeSplit<T>(s: seq<T>, a: T, b: T)
    requires Before(s, a, b)
    ensures s != [] && ((s[0] == a && b in s[1..]) || Before(s[1..], a, b))
  {
    var i, j :| 0 <= i < j < |s| && s[i] == a && s[j] == b;
    assert s[1..][j - 1] == b;
    if i > 0 { assert s[1..][i - 1] == a; }
  }

  /** A selection keeps the order. */
  lemma {:induction false} SelectionOrder<T>(s: seq<T>, x: set<T>, a: T, b: T)
    requires Before(s, a, b)
    ensures a in x && b in x ==> Before(Within(s, x), a, b)
    ensures a !in x && b !in x ==> Before(Without(s, x), a, b)
  {
    hide Before;
    BeforeSplit(s, a, b);
    Member(s[1..], x, b);
    var first: seq<T> := [s[0]];
    if s[0] == a && b in s[1..] {
      if a in x && b in x { BeforeJoin(first, Within(s[1..], x), a, b); }
      if a !in x && b !in x { BeforeJoin(first, Without(s[1..], x), a, b); }
    } else {
      SelectionOrder(s[1..], x, a, b);
      if a in x && b in x { BeforeJoin(first, Within(s[1..], x), a, b); }
      if a !in x && b !in x { BeforeJoin(first, Without(s[1..], x), a, b); }
    }
  }

  /** All that fires in the course of the operations, in order. */
  function FiredBy<T(==)>(q: Queue<T>, ops: seq<Op<T>>): seq<T>
    decreases |ops|
  {
    if ops == [] then [] else (if ops[0].Ticked? then Fires(q) else []) + FiredBy(Apply(q, ops[0]), ops[1..])
  }

  predicate Untouched<T(==)>(ops: seq<Op<T>>, t: T) {
    forall k :: 0 <= k < |ops| ==> !(!ops[k].Ticked? && ops[k].id == t)
  }

  /** Timers fire by due time, and those due together in the order of adding: of
      two pending timers, the one added first and due no later has fired before
      the other does. */
  lemma {:induction false} FiresInOrder<T>(q: Queue<T>, ops: seq<Op<T>>, a: T, b: T)
    requires Valid(q) && Legal(q, ops) && Before(q.pending, a, b)
    requires a in q.due && b in q.due && q.due[a] <= q.due[b] && Untouched(ops, a) && Untouched(ops, b)
    requires b in FiredBy(q, ops)
    ensures Before(FiredBy(q, ops), a, b)
    decreases |ops|
  {
    hide Before;
    BothPending(q.pending, a, b);
    var op, q' := ops[0], Apply(q, ops[0]);
    var now, later := if op.Ticked? then Fires(q) else [], FiredBy(q', ops[1..]);
    ApplyValid(q, op);
    if op.Ticked? && q.due[a] == q.now {
      WithinMembers(q.pending, DueNow(q));
      if q.due[b] == q.now { SelectionOrder(q.pending, DueNow(q), a, b); }
      BeforeJoin(now, later, a, b);
    } else {
      match op {
        case Added(t, k) => BeforeJoin(q.pending, [t], a, b);
        case Deleted(t) => SelectionOrder(q.pending, {t}, a, b);
        case Ticked =>
          Member(q.pending, DueNow(q), b);
          SelectionOrder(q.pending, DueNow(q), a, b);
      }
      FiresInOrder(q', ops[1..], a, b);
      BeforeJoin(now, later, a, b);
    }
  }

  lemma BothPending<T>(s: seq<T>, a: T, b: T)
    requires Before(s, a, b)
    ensures a in s && b in s
  {
  }

  /** A new timer comes after all that are pending. */
  lemma AddedLast<T>(q: Queue<T>, t: T, timeout: nat, a: T)
    requires a in q.pending
    ensures Before(Add(q, t, timeout).pending, a, t)
  {
    BeforeJoin(q.pending, [t], a, t);
  }
}

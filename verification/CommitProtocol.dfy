/** The whole system: any number of transactions, each over any set of
    participants, one GTM, and a network that delivers what is in flight at
    most once and in any order. Every handler is one step. */
module CommitProtocol {
  import opened Bytes
  import opened Participant
  import Gtm

  type Pid = Gtm.Conn
  type Txid = Gtm.Txid

  /** One transaction: its participants, what is in flight to and from each,
      and what the GTM has received and answered. */
  datatype Tx = Tx(
    parts: set<Pid>,
    local: map<Pid, Local>,
    flight: map<Pid, multiset<Item>>,
    votes: seq<Gtm.Vote>,
    answers: seq<Gtm.Answer>)

  datatype Sys = Sys(gtm: Gtm.State, txs: map<Txid, Tx>)

  datatype Step =
    | Begin(parts: set<Pid>)
    | Data(t: Txid, p: Pid, rs: seq<Entry>, ws: seq<Entry>)
    | Commit(t: Txid, p: Pid)
    | Delivery(t: Txid, p: Pid, item: Item, conflict: bool, lsn: nat)

  const START := Sys(Gtm.START, map[])

  function NewTx(parts: set<Pid>): Tx {
    Tx(parts, map p | p in parts :: EMPTY, map p | p in parts :: multiset{}, [], [])
  }

  function Emit(x: Option<Item>): multiset<Item> {
    if x.None? then multiset{} else multiset{x.value}
  }

  function Put(tx: Tx, p: Pid, l: Local, b: multiset<Item>): Tx {
    tx.(local := tx.local[p := l], flight := tx.flight[p := b])
  }

  /** One message for every entry of the list, as the GTM's loop sends them. */
  function SendAll(flight: map<Pid, multiset<Item>>, conns: seq<Pid>, d: bool): map<Pid, multiset<Item>>
    requires forall c :: c in conns ==> c in flight
  {
    if conns == [] then flight
    else SendAll(SendOne(flight, conns[0], d), conns[1..], d)
  }

  /** A vote reaches the GTM. */
  function VoteStep(g: Gtm.State, t: Txid, tx: Tx, p: Pid, vote: bool): Option<(Gtm.State, Tx)>
    requires p in tx.flight
  {
    if t !in g.table then None else
    var (g', a) := Gtm.Judge(g, t, p, vote);
    var tx' := tx.(votes := tx.votes + [Gtm.Vote(p, vote)], flight := tx.flight[p := tx.flight[p] - multiset{Vote(vote)}]);
    if a.None? then Some((g', tx'))
    else if !(forall c :: c in a.value.conns ==> c in tx'.flight) then None
    else Some((g', tx'.(answers := tx'.answers + [a.value], flight := SendAll(tx'.flight, a.value.conns, a.value.isConflict))))
  }

  /** What the environment may do: the entity service sends a participant at
      least one kData, then one kCommit; the network delivers what it holds. */
  predicate Legal(s: Sys, step: Step) {
    match step
    case Begin(_) => true
    case Data(t, p, _, _) =>
      t in s.txs && p in s.txs[t].parts && p in s.txs[t].local && !s.txs[t].local[p].h.committed
    case Commit(t, p) =>
      && t in s.txs && p in s.txs[t].parts && p in s.txs[t].local
      && !s.txs[t].local[p].h.committed && s.txs[t].local[p].h.lsnRequests > 0
    case Delivery(t, p, i, _, _) =>
      t in s.txs && p in s.txs[t].parts && p in s.txs[t].local && p in s.txs[t].flight && i in s.txs[t].flight[p]
  }

  function With(s: Sys, t: Txid, tx: Tx): Sys {
    s.(txs := s.txs[t := tx])
  }

  /** One step; None is a fault in the handler. */
  function Next(s: Sys, step: Step): Option<Sys>
    requires Legal(s, step)
  {
    match step
    case Begin(parts) => Some(Sys(Gtm.Issue(s.gtm, |parts|), s.txs[s.gtm.txid := NewTx(parts)]))
    case Data(t, p, rs, ws) =>
      var tx := s.txs[t];
      if p !in tx.flight then None else
      var r := OnData(tx.local[p], rs, ws);
      Some(With(s, t, Put(tx, p, r.s, tx.flight[p] + Emit(r.item))))
    case Commit(t, p) =>
      var tx := s.txs[t];
      if p !in tx.flight then None else
      var r :- OnCommit(tx.local[p], |tx.parts| > 1);
      Some(With(s, t, Put(tx, p, r.s, tx.flight[p] + Emit(r.item))))
    case Delivery(t, p, i, conflict, lsn) =>
      var tx := s.txs[t];
      if i.Vote? then
        var r :- VoteStep(s.gtm, t, tx, p, i.conflict);
        Some(Sys(r.0, s.txs[t := r.1]))
      else
        var r :- Deliver(tx.local[p], i, conflict, lsn);
        Some(With(s, t, Put(tx, p, r.s, tx.flight[p] - multiset{i} + Emit(r.item))))
  }

  // ---------------------------------------------------------------------
  // The invariant

  ghost function Only(b: multiset<Item>): Option<Item> {
    if b == multiset{} then None else var i :| i in b; Some(i)
  }

  lemma OnlyEmit(x: Option<Item>)
    ensures Only(Emit(x)) == x
  {
    if x.Some? {
      assert x.value in Emit(x);
      assert forall i :: i in Emit(x) ==> i == x.value;
    }
  }

  predicate Distinct(s: seq<Pid>) {
    forall i, j :: 0 <= i < j < |s| ==> s[i] != s[j]
  }

  function View(tx: Tx, p: Pid): GtmView {
    if tx.answers != [] then Decided(tx.answers[0].isConflict)
    else if p in Gtm.Conns(tx.votes) then Counted
    else Unvoted
  }

  ghost predicate PairOk(tx: Tx, p: Pid, v: GtmView)
    requires p in tx.local && p in tx.flight
  {
    tx.flight[p] == Emit(Only(tx.flight[p])) && Good(tx.local[p], Only(tx.flight[p]), |tx.parts| > 1, v)
  }

  predicate VoteOf(local: map<Pid, Local>, v: Gtm.Vote) {
    v.conn in local && local[v.conn].h.checked == Some(v.conflict)
  }

  /** Every vote is a participant's own check, and nobody votes twice. */
  predicate VotesOk(tx: Tx) {
    && Distinct(Gtm.Conns(tx.votes))
    && forall k :: 0 <= k < |tx.votes| ==> VoteOf(tx.local, tx.votes[k])
  }

  /** The GTM's entry counts the votes; it is gone once the answer is out. */
  predicate CountOk(g: Gtm.State, t: Txid, tx: Tx) {
    if |tx.parts| <= 1 then t !in g.table && tx.votes == [] && tx.answers == []
    else if tx.answers == [] then |tx.votes| < |tx.parts| && Gtm.Counted(g, t, |tx.parts|, tx.votes)
    else
      && t !in g.table && |tx.votes| == |tx.parts|
      && tx.answers == [Gtm.Answer(Gtm.Conns(tx.votes), Gtm.AnyConflict(tx.votes))]
  }

  predicate Shaped(tx: Tx) {
    tx.local.Keys == tx.parts && tx.flight.Keys == tx.parts
  }

  ghost predicate TxInv(g: Gtm.State, t: Txid, tx: Tx) {
    && Shaped(tx) && VotesOk(tx) && CountOk(g, t, tx)
    && forall p :: p in tx.parts ==> PairOk(tx, p, View(tx, p))
  }

  ghost predicate Inv(s: Sys) {
    && (forall t: Txid :: t in s.txs <==> t < s.gtm.txid)
    && (forall t :: t in s.gtm.table ==> t < s.gtm.txid)
    && forall t :: t in s.txs ==> TxInv(s.gtm, t, s.txs[t])
  }

  // ---------------------------------------------------------------------
  // Steps of one participant

  lemma PairIntro(tx: Tx, p: Pid, x: Option<Item>, v: GtmView)
    requires p in tx.local && p in tx.flight
    requires tx.flight[p] == Emit(x) && Good(tx.local[p], x, |tx.parts| > 1, v)
    ensures PairOk(tx, p, v)
  {
    OnlyEmit(x);
  }

  lemma PairSame(tx: Tx, tx': Tx, p: Pid, v: GtmView)
    requires p in tx.local && p in tx.flight && PairOk(tx, p, v) && tx'.parts == tx.parts
    requires p in tx'.local && p in tx'.flight && tx'.local[p] == tx.local[p] && tx'.flight[p] == tx.flight[p]
    ensures PairOk(tx', p, v)
  {
    hide Good, Only;
  }

  lemma VotesPut(tx: Tx, p: Pid, l: Local)
    requires VotesOk(tx) && p in tx.local
    requires p !in Gtm.Conns(tx.votes) || l.h.checked == tx.local[p].h.checked
    ensures VotesOk(tx.(local := tx.local[p := l]))
  {
    forall k | 0 <= k < |tx.votes| ensures VoteOf(tx.local[p := l], tx.votes[k]) {
      assert VoteOf(tx.local, tx.votes[k]);
      if tx.votes[k].conn == p { assert Gtm.Conns(tx.votes)[k] == p; }
    }
  }

  lemma PutOk(g: Gtm.State, t: Txid, tx: Tx, p: Pid, l: Local, x: Option<Item>)
    requires TxInv(g, t, tx) && p in tx.parts
    requires Good(l, x, |tx.parts| > 1, View(tx, p))
    requires View(tx, p).Unvoted? || l.h.checked == tx.local[p].h.checked
    ensures TxInv(g, t, Put(tx, p, l, Emit(x)))
  {
    hide Good, Gtm.Counted, Gtm.Conns, PairOk, Emit, VotesOk, CountOk;
    var tx' := Put(tx, p, l, Emit(x));
    VotesPut(tx, p, l);
    assert CountOk(g, t, tx') by { CountSame(g, t, tx, tx'); }
    VotesSame(tx.(local := tx'.local), tx');
    forall q | q in tx.parts ensures PairOk(tx', q, View(tx', q)) {
      assert View(tx', q) == View(tx, q) && PairOk(tx, q, View(tx, q));
      if q == p { PairIntro(tx', p, x, View(tx, p)); } else { PairSame(tx, tx', q, View(tx, q)); }
    }
  }

  lemma CountSame(g: Gtm.State, t: Txid, tx: Tx, tx': Tx)
    requires CountOk(g, t, tx) && tx'.parts == tx.parts && tx'.votes == tx.votes && tx'.answers == tx.answers
    ensures CountOk(g, t, tx')
  {
    hide Gtm.Counted, Gtm.Conns, Gtm.AnyConflict;
  }

  lemma VotesSame(tx: Tx, tx': Tx)
    requires VotesOk(tx) && tx'.votes == tx.votes && tx'.local == tx.local
    ensures VotesOk(tx')
  {
    hide Gtm.Conns, Distinct, VoteOf;
  }

  // ---------------------------------------------------------------------
  // Votes and the broadcast

  lemma DistinctCard(s: seq<Pid>, all: set<Pid>)
    requires Distinct(s) && forall x :: x in s ==> x in all
    ensures |s| <= |all|
    ensures |s| == |all| ==> forall x :: x in all ==> x in s
  {
    if s == [] {
      if |all| == 0 { assert all == {}; }
    } else {
      var last := s[|s| - 1];
      assert s == s[..|s| - 1] + [last];
      DistinctCard(s[..|s| - 1], all - {last});
      assert all == (all - {last}) + {last};
    }
  }

  function SendOne(flight: map<Pid, multiset<Item>>, c: Pid, d: bool): map<Pid, multiset<Item>>
    requires c in flight
  {
    flight[c := flight[c] + multiset{Decide(d)}]
  }

  lemma DistinctTail(s: seq<Pid>)
    requires Distinct(s) && s != []
    ensures Distinct(s[1..]) && s[0] !in s[1..] && forall q :: q in s <==> q == s[0] || q in s[1..]
  {
    assert s == [s[0]] + s[1..];
  }

  /** Each of the distinct addressees gets exactly one message. */
  lemma {:induction false} SendAllGets(flight: map<Pid, multiset<Item>>, conns: seq<Pid>, d: bool, q: Pid)
    requires Distinct(conns) && q in flight && forall c :: c in conns ==> c in flight
    ensures SendAll(flight, conns, d).Keys == flight.Keys
    ensures SendAll(flight, conns, d)[q] == if q in conns then flight[q] + multiset{Decide(d)} else flight[q]
    decreases |conns|
  {
    hide Distinct;
    if conns != [] {
      DistinctTail(conns);
      SendAllGets(SendOne(flight, conns[0], d), conns[1..], d, q);
    }
  }

  /** The transaction after a vote has been taken off the network. */
  function Voted(tx: Tx, p: Pid, vote: bool): Tx
    requires p in tx.flight
  {
    tx.(votes := tx.votes + [Gtm.Vote(p, vote)], flight := tx.flight[p := tx.flight[p] - multiset{Vote(vote)}])
  }

  /** A vote in flight comes from a participant that the GTM has not heard. */
  lemma VoteInFlight(g: Gtm.State, t: Txid, tx: Tx, p: Pid, vote: bool)
    requires TxInv(g, t, tx) && p in tx.parts && Only(tx.flight[p]) == Some(Vote(vote))
    ensures |tx.parts| > 1 && tx.answers == [] && p !in Gtm.Conns(tx.votes)
    ensures VoteOf(tx.local, Gtm.Vote(p, vote)) && tx.flight[p] == Emit(Some(Vote(vote)))
    ensures Good(tx.local[p], None, true, Counted)
  {
    hide Good, Gtm.Counted, Gtm.AnyConflict, Only, Gtm.Conns;
    assert PairOk(tx, p, View(tx, p));
    VoteGood(tx.local[p], Only(tx.flight[p]), |tx.parts| > 1, View(tx, p));
  }

  lemma VotedOk(g: Gtm.State, t: Txid, tx: Tx, p: Pid, vote: bool)
    requires TxInv(g, t, tx) && p in tx.parts && Only(tx.flight[p]) == Some(Vote(vote))
    ensures var tx' := Voted(tx, p, vote);
      && Shaped(tx') && VotesOk(tx')
      && forall q :: q in tx.parts ==> PairOk(tx', q, View(tx', q))
  {
    hide Good, Gtm.Counted, Gtm.AnyConflict, Gtm.Conns, PairOk, Distinct, VoteOf, CountOk, Only;
    var tx' := Voted(tx, p, vote);
    VoteInFlight(g, t, tx, p, vote);
    Gtm.AddVote(tx.votes, Gtm.Vote(p, vote));
    VotesDistinct(tx.votes, Gtm.Vote(p, vote));
    forall q | q in tx.parts ensures PairOk(tx', q, View(tx', q)) {
      assert PairOk(tx, q, View(tx, q));
      if q == p {
        assert tx'.flight[p] == Emit(None);
        PairIntro(tx', p, None, Counted);
      } else {
        assert View(tx, q) == View(tx', q);
        PairSame(tx, tx', q, View(tx, q));
      }
    }
  }

  lemma VotesDistinct(votes: seq<Gtm.Vote>, v: Gtm.Vote)
    requires Distinct(Gtm.Conns(votes)) && v.conn !in Gtm.Conns(votes)
    ensures Distinct(Gtm.Conns(votes + [v]))
  {
    Gtm.AddVote(votes, v);
  }

  /** A participant whose vote is counted waits with nothing in flight. */
  lemma DecideOne(tx: Tx, q: Pid, d: bool)
    requires VotesOk(tx) && q in tx.local && q in tx.flight && q in Gtm.Conns(tx.votes)
    requires |tx.parts| > 1 && PairOk(tx, q, Counted) && d == Gtm.AnyConflict(tx.votes)
    ensures tx.flight[q] + multiset{Decide(d)} == Emit(Some(Decide(d)))
    ensures Good(tx.local[q], Some(Decide(d)), true, Decided(d))
  {
    hide Good, Only;
    var k :| 0 <= k < |tx.votes| && Gtm.Conns(tx.votes)[k] == q;
    assert VoteOf(tx.local, tx.votes[k]);
    DecideGood(tx.local[q], Only(tx.flight[q]), d);
  }

  /** The decision reaches every participant, each of which is waiting for it. */
  lemma CastOk(tx: Tx, d: bool, tx': Tx)
    requires |tx.parts| > 1 && tx.answers == [] && Shaped(tx) && VotesOk(tx) && |tx.votes| == |tx.parts|
    requires d == Gtm.AnyConflict(tx.votes)
    requires forall q :: q in tx.parts ==> PairOk(tx, q, View(tx, q))
    requires forall c :: c in Gtm.Conns(tx.votes) ==> c in tx.flight
    requires tx' == tx.(answers := [Gtm.Answer(Gtm.Conns(tx.votes), d)], flight := SendAll(tx.flight, Gtm.Conns(tx.votes), d))
    ensures Shaped(tx') && VotesOk(tx') && forall q :: q in tx.parts ==> PairOk(tx', q, View(tx', q))
  {
    hide Good, SendAll, PairOk, Distinct, Gtm.Conns, Gtm.AnyConflict;
    var conns := Gtm.Conns(tx.votes);
    ConnsIn(tx);
    assert VoteOf(tx.local, tx.votes[0]);
    DistinctCard(conns, tx.parts);
    SendAllGets(tx.flight, conns, d, tx.votes[0].conn);
    forall q | q in tx.parts ensures PairOk(tx', q, View(tx', q)) {
      assert q in conns && View(tx, q) == Counted;
      SendAllGets(tx.flight, conns, d, q);
      DecideOne(tx, q, d);
      PairIntro(tx', q, Some(Decide(d)), Decided(d));
    }
  }

  lemma VoteOk(g: Gtm.State, t: Txid, tx: Tx, p: Pid, vote: bool)
    requires TxInv(g, t, tx) && p in tx.parts && Only(tx.flight[p]) == Some(Vote(vote))
    ensures var r := VoteStep(g, t, tx, p, vote);
      && r.Some? && TxInv(r.value.0, t, r.value.1)
      && r.value.0.table - {t} == g.table - {t} && r.value.0.txid == g.txid
      && r.value.1.local == tx.local && r.value.1.parts == tx.parts
  {
    hide PairOk, SendAll, Gtm.Conns, Gtm.AnyConflict, VotesOk, View;
    VoteInFlight(g, t, tx, p, vote);
    VotedOk(g, t, tx, p, vote);
    Gtm.VoteCounted(g, t, |tx.parts|, tx.votes, Gtm.Vote(p, vote));
    var (g', a) := Gtm.Judge(g, t, p, vote);
    if a.Some? {
      var tx' := Voted(tx, p, vote);
      ConnsIn(tx');
      CastOk(tx', a.value.isConflict, VoteStep(g, t, tx, p, vote).value.1);
    }
  }

  lemma ConnsIn(tx: Tx)
    requires Shaped(tx) && VotesOk(tx)
    ensures forall c :: c in Gtm.Conns(tx.votes) ==> c in tx.flight
  {
    forall c | c in Gtm.Conns(tx.votes) ensures c in tx.flight {
      var k :| 0 <= k < |tx.votes| && Gtm.Conns(tx.votes)[k] == c;
      assert tx.votes[k].conn in tx.local;
    }
  }

  // ---------------------------------------------------------------------
  // Every step

  lemma BagOf(tx: Tx, p: Pid, v: GtmView, i: Item)
    requires p in tx.local && p in tx.flight && PairOk(tx, p, v) && i in tx.flight[p]
    ensures Only(tx.flight[p]) == Some(i) && tx.flight[p] == Emit(Some(i))
  {
    hide Good;
  }

  lemma BagAdd(x: Option<Item>, y: Option<Item>)
    requires y.Some? ==> x.None?
    ensures Emit(x) + Emit(y) == Emit(if y.Some? then y else x)
  {
  }

  lemma BagSwap(i: Item, y: Option<Item>)
    ensures Emit(Some(i)) - multiset{i} + Emit(y) == Emit(y)
  {
  }

  lemma UncommittedUnvoted(s: Local, x: Option<Item>, g: bool, v: GtmView)
    requires Good(s, x, g, v) && !s.h.committed
    ensures v == Unvoted
  {
  }

  lemma DataOk(g: Gtm.State, t: Txid, tx: Tx, p: Pid, rs: seq<Entry>, ws: seq<Entry>)
    requires TxInv(g, t, tx) && p in tx.parts && !tx.local[p].h.committed
    ensures var r := OnData(tx.local[p], rs, ws);
      TxInv(g, t, Put(tx, p, r.s, tx.flight[p] + Emit(r.item)))
  {
    hide Good, CountOk, VotesOk, Only, Emit, OnData, View;
    var l, x, r := tx.local[p], Only(tx.flight[p]), OnData(tx.local[p], rs, ws);
    assert PairOk(tx, p, View(tx, p));
    UncommittedUnvoted(l, x, |tx.parts| > 1, View(tx, p));
    DataGood(l, x, |tx.parts| > 1, rs, ws);
    BagAdd(x, r.item);
    PutOk(g, t, tx, p, r.s, if r.item.Some? then r.item else x);
  }

  lemma CommitOk(g: Gtm.State, t: Txid, tx: Tx, p: Pid)
    requires TxInv(g, t, tx) && p in tx.parts && !tx.local[p].h.committed && tx.local[p].h.lsnRequests > 0
    ensures var r := OnCommit(tx.local[p], |tx.parts| > 1);
      r.Some? && TxInv(g, t, Put(tx, p, r.value.s, tx.flight[p] + Emit(r.value.item)))
  {
    hide Good, CountOk, VotesOk, Only, Emit, OnCommit, View;
    var l, x := tx.local[p], Only(tx.flight[p]);
    assert PairOk(tx, p, View(tx, p));
    UncommittedUnvoted(l, x, |tx.parts| > 1, View(tx, p));
    CommitGood(l, x, |tx.parts| > 1);
    var r := OnCommit(l, |tx.parts| > 1).value;
    BagAdd(x, r.item);
    PutOk(g, t, tx, p, r.s, if r.item.Some? then r.item else x);
  }

  lemma DeliveryOk(g: Gtm.State, t: Txid, tx: Tx, p: Pid, i: Item, conflict: bool, lsn: nat)
    requires TxInv(g, t, tx) && p in tx.parts && i in tx.flight[p] && !i.Vote?
    ensures var r := Deliver(tx.local[p], i, conflict, lsn);
      && r.Some? && TxInv(g, t, Put(tx, p, r.value.s, tx.flight[p] - multiset{i} + Emit(r.value.item)))
      && (tx.local[p].h.lsnIn.Some? ==> r.value.s.h.lsnIn == tx.local[p].h.lsnIn)
      && (tx.local[p].h.checked.Some? ==> r.value.s.h.checked == tx.local[p].h.checked)
  {
    hide Good, CountOk, VotesOk, Only, Emit, Deliver, View;
    var l, x := tx.local[p], Only(tx.flight[p]);
    assert PairOk(tx, p, View(tx, p));
    BagOf(tx, p, View(tx, p), i);
    DeliverGood(l, x, |tx.parts| > 1, View(tx, p), conflict, lsn);
    var r := Deliver(l, i, conflict, lsn).value;
    BagSwap(i, r.item);
    PutOk(g, t, tx, p, r.s, r.item);
  }

  /** Another transaction's step does not touch this one. */
  lemma GtmFrame(g: Gtm.State, g': Gtm.State, t: Txid, tx: Tx)
    requires TxInv(g, t, tx) && (t in g.table <==> t in g'.table) && (t in g.table ==> g.table[t] == g'.table[t])
    ensures TxInv(g', t, tx)
  {
    hide PairOk, VotesOk, View, Gtm.Conns, Gtm.AnyConflict;
  }

  lemma NewTxOk(g: Gtm.State, parts: set<Pid>)
    requires g.txid !in g.table
    ensures TxInv(Gtm.Issue(g, |parts|), g.txid, NewTx(parts))
  {
    var tx := NewTx(parts);
    forall p | p in parts ensures PairOk(tx, p, View(tx, p)) {
      PairIntro(tx, p, None, Unvoted);
    }
  }

  lemma WithOk(s: Sys, g: Gtm.State, t: Txid, tx: Tx)
    requires Inv(s) && t in s.txs && TxInv(g, t, tx)
    requires g.table - {t} == s.gtm.table - {t} && g.txid == s.gtm.txid
    ensures Inv(Sys(g, s.txs[t := tx]))
  {
    hide TxInv;
    assert forall u :: u != t ==> (u in g.table <==> u in g.table - {t}) && (u in s.gtm.table <==> u in s.gtm.table - {t});
    forall u | u in s.txs && u != t ensures TxInv(g, u, s.txs[u]) {
      if u in g.table { assert (g.table - {t})[u] == (s.gtm.table - {t})[u]; }
      GtmFrame(s.gtm, g, u, s.txs[u]);
    }
  }

  lemma BeginOk(s: Sys, parts: set<Pid>)
    requires Inv(s)
    ensures Inv(Next(s, Begin(parts)).value)
  {
    hide TxInv, NewTx;
    NewTxOk(s.gtm, parts);
    var g := Gtm.Issue(s.gtm, |parts|);
    forall u | u in s.txs ensures TxInv(g, u, s.txs[u]) { GtmFrame(s.gtm, g, u, s.txs[u]); }
  }

  lemma VoteDelivered(s: Sys, t: Txid, p: Pid, vote: bool)
    requires Inv(s) && t in s.txs && p in s.txs[t].parts && p in s.txs[t].flight && Vote(vote) in s.txs[t].flight[p]
    ensures var r := VoteStep(s.gtm, t, s.txs[t], p, vote);
      r.Some? && Inv(Sys(r.value.0, s.txs[t := r.value.1])) && r.value.1.local == s.txs[t].local
  {
    hide PairOk, VotesOk, CountOk, VoteStep, View;
    var tx := s.txs[t];
    assert TxInv(s.gtm, t, tx);
    BagOf(tx, p, View(tx, p), Vote(vote));
    VoteOk(s.gtm, t, tx, p, vote);
    var r := VoteStep(s.gtm, t, tx, p, vote).value;
    WithOk(s, r.0, t, r.1);
  }

  /** Every legal step succeeds and keeps the invariant; an LSN, once in, stays. */
  lemma NextOk(s: Sys, step: Step)
    requires Inv(s) && Legal(s, step)
    ensures Next(s, step).Some? && Inv(Next(s, step).value)
  {
    hide TxInv, VoteStep, Put, Emit, Deliver, OnData, OnCommit, NewTx;
    match step
    case Begin(parts) => BeginOk(s, parts);
    case Data(t, p, rs, ws) =>
      TxShape(s, t);
      DataOk(s.gtm, t, s.txs[t], p, rs, ws);
      WithOk(s, s.gtm, t, Next(s, step).value.txs[t]);
    case Commit(t, p) =>
      TxShape(s, t);
      CommitOk(s.gtm, t, s.txs[t], p);
      WithOk(s, s.gtm, t, Next(s, step).value.txs[t]);
    case Delivery(t, p, i, conflict, lsn) =>
      TxShape(s, t);
      if i.Vote? {
        VoteDelivered(s, t, p, i.conflict);
      } else {
        DeliveryOk(s.gtm, t, s.txs[t], p, i, conflict, lsn);
        WithOk(s, s.gtm, t, Next(s, step).value.txs[t]);
      }
  }

  lemma TxShape(s: Sys, t: Txid)
    requires Inv(s) && t in s.txs
    ensures Shaped(s.txs[t]) && TxInv(s.gtm, t, s.txs[t])
  {
    hide PairOk, VotesOk, CountOk, View;
    assert TxInv(s.gtm, t, s.txs[t]);
  }
}

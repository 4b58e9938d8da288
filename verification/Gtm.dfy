/** The global transaction manager of gtm.cc: it hands out transaction numbers
    and counts the votes of each transaction that has several servers. */
module Gtm {
  import opened Bytes

  type Txid = nat
  type Conn = nat

  /** struct txidInfo: votes still missing, voters so far, OR of the votes. */
  datatype Info = Info(serverNum: int, conns: seq<Conn>, isConflict: bool)

  datatype State = State(table: map<Txid, Info>, txid: Txid)

  const START := State(map[], 0)

  /** getTxid: only a transaction with several servers needs the count. */
  function Issue(g: State, servers: nat): State {
    State(if servers > 1 then g.table[g.txid := Info(servers, [], false)] else g.table, g.txid + 1)
  }

  function Count(i: Info, conn: Conn, vote: bool): Info {
    Info(i.serverNum - 1, i.conns + [conn], i.isConflict || vote)
  }

  /** The answer to all voters: Some once the last vote is in. */
  datatype Answer = Answer(conns: seq<Conn>, isConflict: bool)

  /** judgeConflict. */
  function Judge(g: State, t: Txid, conn: Conn, vote: bool): (State, Option<Answer>)
    requires t in g.table
  {
    var i := Count(g.table[t], conn, vote);
    if i.serverNum == 0 then (g.(table := g.table - {t}), Some(Answer(i.conns, i.isConflict)))
    else (g.(table := g.table[t := i]), None)
  }

  // ---------------------------------------------------------------------
  // A series of votes for one transaction

  datatype Vote = Vote(conn: Conn, conflict: bool)

  function Conns(votes: seq<Vote>): (conns: seq<Conn>)
    ensures |conns| == |votes|
  {
    seq(|votes|, k requires 0 <= k < |votes| => votes[k].conn)
  }

  predicate AnyConflict(votes: seq<Vote>) {
    exists k :: 0 <= k < |votes| && votes[k].conflict
  }

  /** What the table holds for a transaction of n servers after some votes. */
  predicate Counted(g: State, t: Txid, n: nat, votes: seq<Vote>) {
    && t in g.table
    && g.table[t] == Info(n - |votes|, Conns(votes), AnyConflict(votes))
  }

  lemma AddVote(votes: seq<Vote>, v: Vote)
    ensures Conns(votes + [v]) == Conns(votes) + [v.conn]
    ensures AnyConflict(votes + [v]) == (AnyConflict(votes) || v.conflict)
  {
    var all := votes + [v];
    assert all[|votes|] == v;
    assert forall k :: 0 <= k < |votes| ==> all[k] == votes[k];
  }

  /** Votes received plus votes missing make n throughout. The answer goes out
      with the n-th vote and not before, to every voter in voting order, with
      the OR of all the votes, and the entry is gone afterwards. */
  lemma VoteCounted(g: State, t: Txid, n: nat, votes: seq<Vote>, v: Vote)
    requires Counted(g, t, n, votes) && |votes| < n
    ensures var (g', a) := Judge(g, t, v.conn, v.conflict);
      && g'.table - {t} == g.table - {t} && g'.txid == g.txid
      && if |votes| + 1 == n then t !in g'.table && a == Some(Answer(Conns(votes + [v]), AnyConflict(votes + [v])))
         else a.None? && Counted(g', t, n, votes + [v])
  {
    AddVote(votes, v);
  }

  // ---------------------------------------------------------------------
  // The class of gtm.cc

  class TxidInfo {
    var serverNum: int
    var connList: seq<Conn>
    var isConflict: bool

    constructor (n: int)
      ensures View() == Info(n, [], false)
    {
      serverNum, connList, isConflict := n, [], false;
    }

    function View(): Info reads this { Info(serverNum, connList, isConflict) }

    method Add(conn: Conn, vote: bool)
      modifies this
      ensures View() == Count(old(View()), conn, vote)
    {
      connList := connList + [conn];
      isConflict := isConflict || vote;
      serverNum := serverNum - 1;
    }
  }

  /** One kJudgeConflit message to a voter. */
  datatype Reply = Reply(conn: Conn, txid: Txid, isConflict: bool)

  function Replies(t: Txid, a: Answer): seq<Reply> {
    seq(|a.conns|, k requires 0 <= k < |a.conns| => Reply(a.conns[k], t, a.isConflict))
  }

  /** The messages that follow a vote: none before the last one; then one for each
      voter in order, a conflict exactly if one of the votes was. */
  predicate SentAfter(sent: seq<Reply>, t: Txid, n: nat, all: seq<Vote>) {
    if |all| < n then sent == []
    else
      && |sent| == |all|
      && forall k :: 0 <= k < |all| ==>
           && sent[k].conn == all[k].conn && sent[k].txid == t
           && (sent[k].isConflict <==> exists j :: 0 <= j < |all| && all[j].conflict)
  }

  lemma VoteSends(g: State, t: Txid, n: nat, votes: seq<Vote>, v: Vote, sent: seq<Reply>)
    requires Counted(g, t, n, votes) && |votes| < n
    requires var a := Judge(g, t, v.conn, v.conflict).1;
      sent == if a.Some? then Replies(t, a.value) else []
    ensures SentAfter(sent, t, n, votes + [v])
    ensures var g' := Judge(g, t, v.conn, v.conflict).0;
      if |votes| + 1 < n then Counted(g', t, n, votes + [v]) else t !in g'.table
  {
    hide Judge, Counted;
    VoteCounted(g, t, n, votes, v);
  }

  method Broadcast(t: Txid, conns: seq<Conn>, isConflict: bool) returns (sent: seq<Reply>)
    ensures sent == Replies(t, Answer(conns, isConflict)) && |sent| == |conns|
    ensures forall k :: 0 <= k < |conns| ==> sent[k].conn == conns[k] && sent[k].txid == t && sent[k].isConflict == isConflict
  {
    sent := [];
    for k := 0 to |conns|
      invariant sent == Replies(t, Answer(conns, isConflict))[..k]
    {
      sent := sent + [Reply(conns[k], t, isConflict)];
    }
  }

  class Manager {
    var table: map<Txid, TxidInfo>
    var txid: Txid

    /** No two transactions share an info object. */
    ghost predicate Valid() reads this {
      forall a, b :: a in table && b in table && a != b ==> table[a] != table[b]
    }

    ghost function View(): State
      reads this, table.Values
    {
      State(map t | t in table :: table[t].View(), txid)
    }

    constructor ()
      ensures Valid() && View() == START
    {
      table, txid := map[], 0;
    }

    method GetTxid(servers: nat) returns (t: Txid)
      requires Valid()
      modifies this
      ensures Valid() && t == old(txid)
      ensures View() == Issue(old(View()), servers)
      ensures forall i :: i in table.Values ==> i in old(table).Values || fresh(i)
    {
      if servers > 1 {
        var info := new TxidInfo(servers);
        table := table[txid := info];
      }
      t := txid;
      txid := txid + 1;
    }

    /** One vote on the entry of its transaction, and the broadcast if it was the
        last. */
    method Tally(conn: Conn, t: Txid, isLocalConflict: bool) returns (sent: seq<Reply>)
      requires Valid() && t in table
      modifies this, table[t]
      ensures Valid()
      ensures var (g, a) := Judge(old(View()), t, conn, isLocalConflict);
        View() == g && sent == if a.Some? then Replies(t, a.value) else []
    {
      hide Count, Replies;
      ghost var was := View();
      var info := table[t];
      info.Add(conn, isLocalConflict);
      assert View().table == was.table[t := Count(was.table[t], conn, isLocalConflict)];
      sent := [];
      if info.serverNum == 0 {
        sent := Broadcast(t, info.connList, info.isConflict);
        table := table - {t};
      }
    }

    /** The source dereferences the entry: a vote needs a known transaction. With
        the votes that the entry counts, the last of n goes out to all voters, in
        the order of their votes, as a conflict exactly if one of them found one;
        before that nothing is sent. */
    method JudgeConflict(conn: Conn, t: Txid, isLocalConflict: bool, ghost n: nat, ghost votes: seq<Vote>)
      returns (sent: seq<Reply>)
      requires Valid() && t in table
      modifies this, table[t]
      ensures Valid()
      ensures old(Counted(View(), t, n, votes)) && |votes| < n ==>
        var all := votes + [Vote(conn, isLocalConflict)];
        SentAfter(sent, t, n, all) && if |all| < n then Counted(View(), t, n, all) else t !in View().table
      ensures var (g, a) := Judge(old(View()), t, conn, isLocalConflict);
        View() == g && sent == if a.Some? then Replies(t, a.value) else []
    {
      hide Judge, Replies, Counted, SentAfter;
      ghost var was := View();
      sent := Tally(conn, t, isLocalConflict);
      if Counted(was, t, n, votes) && |votes| < n { VoteSends(was, t, n, votes, Vote(conn, isLocalConflict), sent); }
    }
  }
}

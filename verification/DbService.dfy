/** The participant's node: DbService with its Dbtm, whose tables hold pointers
    to transaction objects that the handlers update in place, move from one
    table to the other and free. Each handler is proved against the function of
    the same name in module Participant, for every log and history. */
module DbServiceImpl {
  import opened Bytes
  import P = Participant

  type Txid = nat
  type Conn = nat

  class Transaction {
    const txid: Txid
    var readSet: seq<P.Entry>
    var writeSet: seq<P.Entry>
    var needGlobal: bool
    var lsn: int
    var alreadyCommit: bool

    constructor (t: Txid)
      ensures txid == t && View() == P.NEW_TRANS
    {
      txid := t;
      readSet, writeSet, needGlobal, lsn, alreadyCommit := [], [], false, -1, false;
    }

    function View(): P.Trans reads this {
      P.Trans(readSet, writeSet, needGlobal, lsn, alreadyCommit)
    }

    /** The two loops of getReadWriteSet. */
    method Append(rs: seq<P.Entry>, ws: seq<P.Entry>)
      modifies this
      ensures View() == old(View()).(readSet := old(readSet) + rs, writeSet := old(writeSet) + ws)
    {
      for i := 0 to |rs|
        invariant View() == old(View()).(readSet := old(readSet) + rs[..i])
      {
        readSet := readSet + [P.Entry(rs[i].key, rs[i].attribute, rs[i].value)];
      }
      for i := 0 to |ws|
        invariant View() == old(View()).(readSet := old(readSet) + rs, writeSet := old(writeSet) + ws[..i])
      {
        writeSet := writeSet + [P.Entry(ws[i].key, ws[i].attribute, ws[i].value)];
      }
    }

    /** The loop of sendLog. */
    method LogData() returns (data: seq<P.Entry>)
      ensures data == writeSet
    {
      data := [];
      for i := 0 to |writeSet|
        invariant data == writeSet[..i]
      {
        data := data + [P.Entry(writeSet[i].key, writeSet[i].attribute, writeSet[i].value)];
      }
    }
  }

  /** What the node holds for one transaction. */
  datatype Node = Node(trans: Option<P.Trans>, conn: Option<Conn>, owned: Option<P.Trans>) {
    /** The transaction, a new one if there is none yet. */
    function Trans(): P.Trans { if trans.Some? then trans.value else P.NEW_TRANS }
  }

  function Look(m: map<Txid, Transaction>, t: Txid): Option<P.Trans>
    reads m.Values
  {
    if t in m then Some(m[t].View()) else None
  }

  class DbService {
    var txidTrans: map<Txid, Transaction>
    var table: map<Txid, Conn>
    var owned: map<Txid, Transaction>       // Dbtm::table_
    ghost var freed: set<Transaction>

    /** Each live transaction is in one table, once, under its own number, and
        no table still points to a freed one. */
    ghost predicate Valid() reads this {
      && (forall a :: a in txidTrans ==> txidTrans[a].txid == a && txidTrans[a] !in freed)
      && (forall a :: a in owned ==> owned[a].txid == a && owned[a] !in freed)
      && (forall a :: a in txidTrans && a in owned ==> txidTrans[a] != owned[a])
    }

    ghost function At(t: Txid): Node
      reads this, txidTrans.Values, owned.Values
    {
      Node(Look(txidTrans, t), if t in table then Some(table[t]) else None, Look(owned, t))
    }

    ghost function View(t: Txid, log: seq<P.Entry>, h: P.History): P.Local
      reads this, txidTrans.Values, owned.Values
    {
      P.Local(At(t).trans, At(t).conn.Some?, At(t).owned, log, h)
    }

    constructor ()
      ensures Valid() && freed == {} && forall t :: At(t) == Node(None, None, None)
    {
      txidTrans, table, owned, freed := map[], map[], map[], {};
    }

    method GetReadWriteSet(conn: Conn, t: Txid, rs: seq<P.Entry>, ws: seq<P.Entry>, ghost log: seq<P.Entry>, ghost h: P.History)
      requires Valid()
      modifies this`txidTrans, this`table, txidTrans.Values
      ensures Valid() && t in txidTrans && At(t).conn == Some(conn)
      ensures var s := P.GetReadWriteSet(old(View(t, log, h)), rs, ws);
        View(t, s.logTable, s.h) == s
      ensures var was := old(At(t)).Trans();
        At(t).trans == Some(was.(readSet := was.readSet + rs, writeSet := was.writeSet + ws))
      ensures forall u :: u != t ==> At(u) == old(At(u))
      ensures forall o :: o in txidTrans.Values ==> o in old(txidTrans).Values || fresh(o)
    {
      var tran;
      if t !in txidTrans {
        tran := new Transaction(t);
        txidTrans := txidTrans[t := tran];
      } else {
        tran := txidTrans[t];
      }
      table := table[tran.txid := conn];
      tran.Append(rs, ws);
    }

    /** kData. */
    method OnData(conn: Conn, t: Txid, rs: seq<P.Entry>, ws: seq<P.Entry>, ghost log: seq<P.Entry>, ghost h: P.History)
      returns (item: Option<P.Item>)
      requires Valid()
      modifies this`txidTrans, this`table, txidTrans.Values
      ensures Valid() && At(t).conn == Some(conn)
      ensures var r := P.OnData(old(View(t, log, h)), rs, ws);
        View(t, r.s.logTable, r.s.h) == r.s && item == r.item
      ensures var was := old(At(t)).Trans();
        && item == (if was.lsn == -1 then Some(P.GetLsn) else None)
        && At(t).trans == Some(was.(readSet := was.readSet + rs, writeSet := was.writeSet + ws, lsn := if was.lsn == -1 then 0 else was.lsn))
      ensures forall u :: u != t ==> At(u) == old(At(u))
    {
      GetReadWriteSet(conn, t, rs, ws, log, h);
      item := None;
      if txidTrans[t].lsn == -1 {
        txidTrans[t].lsn := 0;
        item := Some(P.GetLsn);
      }
    }

    /** kCommit; the entry must be there. */
    method OnCommit(t: Txid, needGlobal: bool, ghost log: seq<P.Entry>, ghost h: P.History) returns (item: Option<P.Item>)
      requires Valid() && t in txidTrans
      modifies txidTrans[t]
      ensures Valid()
      ensures var r := P.OnCommit(old(View(t, log, h)), needGlobal);
        r.Some? && View(t, r.value.s.logTable, r.value.s.h) == r.value.s && item == r.value.item
      ensures forall u :: u != t ==> At(u) == old(At(u))
    {
      txidTrans[t].needGlobal := needGlobal;
      if txidTrans[t].lsn > 0 {
        item := Some(P.Check);
      } else {
        txidTrans[t].alreadyCommit := true;
        item := None;
      }
    }

    /** kLsn; the entry must be there. */
    method OnLsn(t: Txid, lsn: int, ghost log: seq<P.Entry>, ghost h: P.History) returns (item: Option<P.Item>)
      requires Valid() && t in txidTrans
      modifies txidTrans[t]
      ensures Valid()
      ensures var r := P.OnLsn(old(View(t, log, h)), lsn);
        r.Some? && View(t, r.value.s.logTable, r.value.s.h) == r.value.s && item == r.value.item
      ensures forall u :: u != t ==> At(u) == old(At(u))
    {
      txidTrans[t].lsn := lsn;
      item := if txidTrans[t].alreadyCommit then Some(P.Check) else None;
    }

    /** retResult: the report goes to the connection on record, and the object
        that Dbtm owns, if any, is freed; it was not freed before. */
    method RetResult(success: bool, t: Txid, ghost log: seq<P.Entry>, ghost h: P.History) returns (to: Conn, report: bool)
      requires Valid() && t in table
      modifies this`owned, this`freed
      ensures Valid() && to == table[t] && report == success
      ensures freed == old(freed) + if t in old(owned) then {old(owned[t])} else {}
      ensures t in old(owned) ==> old(owned[t]) !in old(freed)
      ensures var r := P.RetResult(old(View(t, log, h)), success);
        r.Some? && View(t, r.value.logTable, r.value.h) == r.value
      ensures forall u :: u != t ==> At(u) == old(At(u))
    {
      to, report := table[t], success;
      if t in owned {
        freed := freed + {owned[t]};
        owned := owned - {t};
      }
    }

    /** cacheRWSet: what kLog carries. */
    method CacheRWSet(tran: Transaction, ghost log: seq<P.Entry>, ghost h: P.History) returns (item: Option<P.Item>)
      requires Valid() && tran.txid in owned && owned[tran.txid] == tran
      ensures var r := P.CacheRWSet(View(tran.txid, log, h));
        r.Some? && View(tran.txid, r.value.s.logTable, r.value.s.h) == r.value.s && item == r.value.item
    {
      var data := tran.LogData();
      item := Some(P.Log(data));
    }

    /** judgeLocalConflict on the object bound at enqueueing, given what the
        index answered; on a conflict the failure is reported first. */
    method JudgeLocalConflict(tran: Transaction, conflict: bool, ghost log: seq<P.Entry>, ghost h: P.History)
      returns (item: Option<P.Item>, report: Option<bool>)
      requires Valid() && tran.txid in txidTrans && txidTrans[tran.txid] == tran && (conflict ==> tran.txid in table)
      modifies this`txidTrans, this`owned, this`freed
      ensures Valid() && tran !in freed && report == if conflict then Some(false) else None
      ensures item == if old(tran.needGlobal) then Some(P.Vote(conflict)) else if conflict then None else Some(P.Log(old(tran.writeSet)))
      ensures !conflict ==> tran.txid !in txidTrans && tran.txid in owned && owned[tran.txid] == tran
      ensures conflict ==> txidTrans == old(txidTrans) && tran.txid !in owned
      ensures var r := P.RunCheck(old(View(tran.txid, log, h)), conflict);
        && r.Some? && View(tran.txid, r.value.s.logTable, r.value.s.h) == r.value.s && item == r.value.item
        && r.value.s.h.reports == h.reports + if report.Some? then [report.value] else []
      ensures forall u :: u != tran.txid ==> At(u) == old(At(u))
    {
      report := None;
      if !conflict {
        owned := owned[tran.txid := tran];
        txidTrans := txidTrans - {tran.txid};
        if tran.needGlobal {
          item := Some(P.Vote(false));
        } else {
          item := CacheRWSet(tran, log, h.(checked := Some(false)));
        }
      } else {
        var to, status := RetResult(false, tran.txid, log, h.(checked := Some(true)));
        report := Some(status);
        item := if tran.needGlobal then Some(P.Vote(true)) else None;
      }
    }

    /** Dbtm::solve on the GTM's decision; a clean decision needs the entry. */
    method Solve(t: Txid, isGlobalConflict: bool, ghost log: seq<P.Entry>, ghost h: P.History)
      returns (item: Option<P.Item>, report: Option<bool>)
      requires Valid() && if isGlobalConflict then t in table else t in owned
      modifies this`owned, this`freed
      ensures Valid() && report == if isGlobalConflict then Some(false) else None
      ensures item == if isGlobalConflict then None else Some(P.Log(old(owned[t].writeSet)))
      ensures var r := P.RunSolve(old(View(t, log, h)), isGlobalConflict);
        && r.Some? && View(t, r.value.s.logTable, r.value.s.h) == r.value.s && item == r.value.item
        && r.value.s.h.reports == h.reports + if report.Some? then [report.value] else []
      ensures forall u :: u != t ==> At(u) == old(At(u))
    {
      item, report := None, None;
      if !isGlobalConflict {
        item := CacheRWSet(owned[t], log, h);
      } else {
        var to, status := RetResult(false, t, log, h);
        report := Some(status);
      }
    }
  }
}

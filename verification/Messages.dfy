/** GRIT's log messages on the wire: the DbtlMsg that carries a write set to
    the log store and the DbMsg that carries the log to a replica, written with
    the generated Create functions and read with the generated accessors. */
module Messages {
  import opened Bytes
  import opened Reader
  import opened WireValue
  import opened FinishedBuffer
  import opened TreeFits
  import P = Participant
  import V = MessageVerifier
  import A = VerifierAccepts

  // ---------------------------------------------------------------------
  // What the Create functions build

  /** CreateData. */
  function DataValue(e: P.Entry): Value {
    Table([Ref(8, Str(e.value)), Ref(6, Str(e.attribute)), Ref(4, Str(e.key))])
  }

  function DataVector(es: seq<P.Entry>): Value {
    Vec(seq(|es|, i requires 0 <= i < |es| => DataValue(es[i])))
  }

  /** CreateDbtlMsg. */
  function DbtlValue(cmd: int, txid: int, data: seq<P.Entry>): Value {
    Table([Ref(8, DataVector(data)), Scalar(6, 4, ToU32(txid), 0), Scalar(4, 4, ToU32(cmd), 0)])
  }

  /** CreateDbMsg. */
  function DbValue(txid: int, data: seq<P.Entry>): Value {
    Table([Ref(6, DataVector(data)), Scalar(4, 4, ToU32(txid), 0)])
  }

  const DBTL_TAG: nat := 4
  const DB_TAG: nat := 8

  /** CreateRootMsg. */
  function RootValue(tag: nat, any: Value): Value {
    Table([Ref(6, any), Scalar(4, 1, tag, 0)])
  }

  // ---------------------------------------------------------------------
  // What the handlers read

  function ReadText(b: Buffer, p: int, id: nat): Option<seq<Byte>> {
    var q :- GetPointer(b, p, id);
    if q.None? then None else StrBytes(b, q.value)
  }

  function ReadData(b: Buffer, p: int): Option<P.Entry> {
    var k :- ReadText(b, p, 4);
    var a :- ReadText(b, p, 6);
    var v :- ReadText(b, p, 8);
    Some(P.Entry(k, a, v))
  }

  /** The loops over data->size() and data->Get(i). */
  function ReadEntries(b: Buffer, q: int, i: nat, n: nat): Option<seq<P.Entry>>
    decreases n - i
  {
    if i >= n then Some([]) else
    var p :- VecGet(b, q, i);
    var e :- ReadData(b, p);
    var rest :- ReadEntries(b, q, i + 1, n);
    Some([e] + rest)
  }

  function ReadVector(b: Buffer, p: int, id: nat): Option<seq<P.Entry>> {
    var q :- GetPointer(b, p, id);
    if q.None? then None else
    var n :- VecSize(b, q.value);
    ReadEntries(b, q.value, 0, n)
  }

  function ReadInt(b: Buffer, p: int, id: nat): Option<int> {
    var u :- GetField(b, p, id, 4, 0);
    Some(FromU32(u))
  }

  /** The payload of a root message of the given type. */
  function ReadAny(b: Buffer, tag: nat): Option<int> {
    var root :- Root(b);
    var t :- GetField(b, root, 4, 1, 0);
    if t != tag then None else
    var any :- GetPointer(b, root, 6);
    any
  }

  datatype LogMsg = LogMsg(cmd: int, txid: int, data: seq<P.Entry>)

  function ReadDbtlMsg(b: Buffer): Option<LogMsg> {
    var p :- ReadAny(b, DBTL_TAG);
    var cmd :- ReadInt(b, p, 4);
    var txid :- ReadInt(b, p, 6);
    var data :- ReadVector(b, p, 8);
    Some(LogMsg(cmd, txid, data))
  }

  function ReadDbMsg(b: Buffer): Option<(int, seq<P.Entry>)> {
    var p :- ReadAny(b, DB_TAG);
    var txid :- ReadInt(b, p, 4);
    var data :- ReadVector(b, p, 6);
    Some((txid, data))
  }

  // ---------------------------------------------------------------------
  // Reading undoes writing

  predicate Int32(x: int) { -0x8000_0000 <= x < 0x8000_0000 }

  lemma FieldAt(b: Buffer, p: int, fs: seq<Field>, i: nat, a: Layout)
    requires Holds(b, p, Table(fs), a) && i < |fs|
    ensures FieldHolds(b, p, fs[i], a)
  {
  }

  lemma DataReads(b: Buffer, p: int, e: P.Entry, a: Layout)
    requires Holds(b, p, DataValue(e), a)
    ensures ReadData(b, p) == Some(e)
  {
    var fs := DataValue(e).fields;
    FieldAt(b, p, fs, 0, a);
    FieldAt(b, p, fs, 1, a);
    FieldAt(b, p, fs, 2, a);
    hide GetPointer, StrBytes;
    TextReads(b, p, 8, e.value, a);
    TextReads(b, p, 6, e.attribute, a);
    TextReads(b, p, 4, e.key, a);
  }

  lemma TextReads(b: Buffer, p: int, id: nat, s: seq<Byte>, a: Layout)
    requires FieldHolds(b, p, Ref(id, Str(s)), a)
    ensures ReadText(b, p, id) == Some(s)
  {
    hide GetPointer, StrBytes;
  }

  lemma {:induction false} EntriesRead(b: Buffer, q: int, es: seq<P.Entry>, i: nat, a: Layout)
    requires Holds(b, q, DataVector(es), a) && i <= |es|
    ensures ReadEntries(b, q, i, |es|) == Some(es[i..])
    decreases |es| - i
  {
    hide ReadData, DataValue, VecGet, VecSize;
    if i < |es| {
      var vs := DataVector(es).elems;
      assert ElemHolds(b, VecGet(b, q, i), vs[i], a);
      DataReads(b, VecGet(b, q, i).value, es[i], a);
      EntriesRead(b, q, es, i + 1, a);
      assert es[i..] == [es[i]] + es[i + 1..];
    } else {
      assert es[i..] == [];
    }
  }

  lemma VectorReads(b: Buffer, p: int, id: nat, es: seq<P.Entry>, a: Layout)
    requires FieldHolds(b, p, Ref(id, DataVector(es)), a)
    ensures ReadVector(b, p, id) == Some(es)
  {
    var q := GetPointer(b, p, id).value.value;
    assert Holds(b, q, DataVector(es), a);
    EntriesRead(b, q, es, 0, a);
    assert VecSize(b, q) == Some(|DataVector(es).elems|);
  }

  lemma IntReads(b: Buffer, p: int, id: nat, x: int, a: Layout)
    requires FieldHolds(b, p, Scalar(id, 4, ToU32(x), 0), a) && Int32(x)
    ensures ReadInt(b, p, id) == Some(x)
  {
    SignedRoundTrip(x);
  }

  lemma RootReads(b: Buffer, tag: nat, any: Value, a: Layout) returns (p: int)
    requires Root(b).Some? && Holds(b, Root(b).value, RootValue(tag, any), a)
    ensures ReadAny(b, tag) == Some(p) && Holds(b, p, any, a)
  {
    var root, fs := Root(b).value, RootValue(tag, any).fields;
    FieldAt(b, root, fs, 0, a);
    FieldAt(b, root, fs, 1, a);
    hide GetPointer, GetField, Root;
    p := GetPointer(b, root, 6).value.value;
  }

  lemma DataVectorWf(es: seq<P.Entry>)
    ensures Wf(DataVector(es)) && Narrow(DataVector(es))
  {
    forall i | 0 <= i < |es| ensures Wf(DataValue(es[i])) && Narrow(DataValue(es[i])) {}
  }

  lemma RootWf(tag: nat, any: Value)
    requires Wf(any) && Narrow(any) && tag < 256
    ensures Wf(RootValue(tag, any)) && Narrow(RootValue(tag, any))
  {
    Widths();
    var fs := RootValue(tag, any).fields;
    assert WfField(fs[0]) && NarrowField(fs[0]);
    assert WfField(fs[1]) && NarrowField(fs[1]);
  }

  lemma DbtlWf(cmd: int, txid: int, data: seq<P.Entry>)
    ensures Wf(RootValue(DBTL_TAG, DbtlValue(cmd, txid, data))) && Narrow(RootValue(DBTL_TAG, DbtlValue(cmd, txid, data)))
  {
    hide DataVector;
    DataVectorWf(data);
    Widths();
    var fs := DbtlValue(cmd, txid, data).fields;
    assert WfField(fs[0]) && NarrowField(fs[0]);
    assert WfField(fs[1]) && NarrowField(fs[1]);
    assert WfField(fs[2]) && NarrowField(fs[2]);
    RootWf(DBTL_TAG, DbtlValue(cmd, txid, data));
  }

  lemma DbWf(txid: int, data: seq<P.Entry>)
    ensures Wf(RootValue(DB_TAG, DbValue(txid, data))) && Narrow(RootValue(DB_TAG, DbValue(txid, data)))
  {
    hide DataVector;
    DataVectorWf(data);
    Widths();
    var fs := DbValue(txid, data).fields;
    assert WfField(fs[0]) && NarrowField(fs[0]);
    assert WfField(fs[1]) && NarrowField(fs[1]);
    RootWf(DB_TAG, DbValue(txid, data));
  }

  /** The bytes that sendLog, and playLog, put on a connection. */
  function DbtlBuffer(m: LogMsg, forceDefaults: bool, dedup: bool): Buffer {
    DbtlWf(m.cmd, m.txid, m.data);
    EncodeSucceeds(RootValue(DBTL_TAG, DbtlValue(m.cmd, m.txid, m.data)), forceDefaults, dedup);
    Encode(RootValue(DBTL_TAG, DbtlValue(m.cmd, m.txid, m.data)), forceDefaults, dedup).value
  }

  function DbBuffer(txid: int, data: seq<P.Entry>, forceDefaults: bool, dedup: bool): Buffer {
    DbWf(txid, data);
    EncodeSucceeds(RootValue(DB_TAG, DbValue(txid, data)), forceDefaults, dedup);
    Encode(RootValue(DB_TAG, DbValue(txid, data)), forceDefaults, dedup).value
  }

  /** A kLog message hands the log store exactly the entries that were sent. */
  lemma DbtlMsgRoundTrip(m: LogMsg, forceDefaults: bool, dedup: bool)
    requires Int32(m.cmd) && Int32(m.txid)
    requires |DbtlBuffer(m, forceDefaults, dedup)| <= MAX_BUFFER_SIZE
    ensures ReadDbtlMsg(DbtlBuffer(m, forceDefaults, dedup)) == Some(m)
  {
    hide Encode, Holds, Wf, Narrow, Root, RootValue, ReadAny, DataVector, ReadVector, ReadInt;
    DbtlWf(m.cmd, m.txid, m.data);
    var v := DbtlValue(m.cmd, m.txid, m.data);
    var b := DbtlBuffer(m, forceDefaults, dedup);
    EncodeSucceeds(RootValue(DBTL_TAG, v), forceDefaults, dedup);
    EncodeRoundTrip(RootValue(DBTL_TAG, v), forceDefaults, dedup);
    var a: Layout :| Root(b).Some? && Holds(b, Root(b).value, RootValue(DBTL_TAG, v), a);
    var p := RootReads(b, DBTL_TAG, v, a);
    FieldAt(b, p, v.fields, 0, a);
    FieldAt(b, p, v.fields, 1, a);
    FieldAt(b, p, v.fields, 2, a);
    VectorReads(b, p, 8, m.data, a);
    IntReads(b, p, 6, m.txid, a);
    IntReads(b, p, 4, m.cmd, a);
  }

  /** A DbMsg hands the replica exactly the log that was played. */
  lemma DbMsgRoundTrip(txid: int, data: seq<P.Entry>, forceDefaults: bool, dedup: bool)
    requires Int32(txid)
    requires |DbBuffer(txid, data, forceDefaults, dedup)| <= MAX_BUFFER_SIZE
    ensures ReadDbMsg(DbBuffer(txid, data, forceDefaults, dedup)) == Some((txid, data))
  {
    hide Encode, Holds, Wf, Narrow, Root, RootValue, ReadAny, DataVector, ReadVector, ReadInt;
    DbWf(txid, data);
    var v := DbValue(txid, data);
    var b := DbBuffer(txid, data, forceDefaults, dedup);
    EncodeSucceeds(RootValue(DB_TAG, v), forceDefaults, dedup);
    EncodeRoundTrip(RootValue(DB_TAG, v), forceDefaults, dedup);
    var a: Layout :| Root(b).Some? && Holds(b, Root(b).value, RootValue(DB_TAG, v), a);
    var p := RootReads(b, DB_TAG, v, a);
    FieldAt(b, p, v.fields, 0, a);
    FieldAt(b, p, v.fields, 1, a);
    VectorReads(b, p, 6, data, a);
    IntReads(b, p, 4, txid, a);
  }

  // ---------------------------------------------------------------------
  // Log messages verify

  lemma DataConforms(e: P.Entry)
    ensures A.Conforms(V.DataEntry, DataValue(e)) && A.TableCount(V.DataEntry, DataValue(e)) == 1
  {
    var fs := DataValue(e).fields;
    Vals3(fs);
    var specs := V.Schema(V.DataEntry);
    assert specs[1..][1..][1..] == [];
    assert specs[1..][1..][0] == specs[2] && specs[1..][0] == specs[1];
  }

  lemma {:induction false} DataCount(es: seq<P.Entry>, i: nat)
    requires i <= |es|
    ensures A.ElemTables(V.DataEntry, DataVector(es).elems, i) == |es| - i
    decreases |es| - i
  {
    hide A.TableCount;
    if i < |es| {
      DataConforms(es[i]);
      DataCount(es, i + 1);
    }
  }

  lemma DbtlConforms(m: LogMsg)
    ensures A.Conforms(V.DbtlMsg, DbtlValue(m.cmd, m.txid, m.data))
    ensures A.TableCount(V.DbtlMsg, DbtlValue(m.cmd, m.txid, m.data)) == 1 + |m.data|
  {
    hide A.ElemTables;
    var fs, vs := DbtlValue(m.cmd, m.txid, m.data).fields, DataVector(m.data).elems;
    forall i | 0 <= i < |vs| ensures A.Conforms(V.DataEntry, vs[i]) { DataConforms(m.data[i]); }
    DataCount(m.data, 0);
    Vals3(fs);
    var specs := V.Schema(V.DbtlMsg);
    assert specs[1..][1..][1..] == [];
    assert specs[1..][1..][0] == specs[2] && specs[1..][0] == specs[1];
  }

  lemma Vals2(fs: seq<Field>)
    requires |fs| == 2 && fs[0].id != fs[1].id
    ensures A.FieldVal(fs, fs[0].id) == Some(fs[0]) && A.FieldVal(fs, fs[1].id) == Some(fs[1])
  {
    assert fs[1..][0] == fs[1];
  }

  lemma Vals3(fs: seq<Field>)
    requires |fs| == 3 && fs[0].id != fs[1].id && fs[0].id != fs[2].id && fs[1].id != fs[2].id
    ensures forall i :: 0 <= i < 3 ==> A.FieldVal(fs, fs[i].id) == Some(fs[i])
  {
    Vals2(fs[1..]);
    assert fs[1..][0] == fs[1] && fs[1..][1] == fs[2];
  }

  lemma RootFields(fs: seq<Field>, any: Value, m: LogMsg)
    requires fs == RootValue(DBTL_TAG, any).fields
    requires A.FieldVal(fs, 6) == Some(Ref(6, any)) && A.FieldVal(fs, 4) == Some(Scalar(4, 1, DBTL_TAG, 0))
    requires A.Conforms(V.DbtlMsg, any) && A.TableCount(V.DbtlMsg, any) == 1 + |m.data|
    ensures A.Conforms(V.RootMsg, Table(fs)) && A.TableCount(V.RootMsg, Table(fs)) == 2 + |m.data|
  {
    hide A.FieldVal;
    var specs := V.Schema(V.RootMsg);
    assert specs[1..][1..] == [] && specs[1..][0] == specs[1];
    assert A.TagOf(fs, 4) == DBTL_TAG;
    V.SchemaBelow(V.RootMsg);
    assert A.FieldTables(fs, specs[0], 2) == 0 && A.FieldTables(fs, specs[1], 2) == A.TableCount(V.DbtlMsg, any);
    assert A.ConformsField(fs, specs[0], 2) && A.ConformsField(fs, specs[1], 2);
  }

  lemma RootConforms(m: LogMsg)
    ensures A.Conforms(V.RootMsg, RootValue(DBTL_TAG, DbtlValue(m.cmd, m.txid, m.data)))
    ensures A.TableCount(V.RootMsg, RootValue(DBTL_TAG, DbtlValue(m.cmd, m.txid, m.data))) == 2 + |m.data|
  {
    hide DbtlValue, A.TableCount, A.Conforms;
    DbtlConforms(m);
    var fs := RootValue(DBTL_TAG, DbtlValue(m.cmd, m.txid, m.data)).fields;
    Vals2(fs);
    RootFields(fs, DbtlValue(m.cmd, m.txid, m.data), m);
  }

  /** A kLog message passes VerifyRootMsgBuffer, which counts its two tables
      and one for each entry. */
  lemma LogMessageVerifies(m: LogMsg, forceDefaults: bool, dedup: bool, cfg: V.Config)
    requires |DbtlBuffer(m, forceDefaults, dedup)| < MAX_BUFFER_SIZE && cfg.maxDepth >= 3 && 2 + |m.data| <= cfg.maxTables
    ensures V.CheckBuffer(DbtlBuffer(m, forceDefaults, dedup), cfg) == V.Pass(V.Counters(0, 2 + |m.data|))
  {
    hide Encode, Wf, Narrow, RootValue, A.Conforms, A.TableCount, V.CheckBuffer;
    var v := RootValue(DBTL_TAG, DbtlValue(m.cmd, m.txid, m.data));
    DbtlWf(m.cmd, m.txid, m.data);
    EncodeSucceeds(v, forceDefaults, dedup);
    RootConforms(m);
    A.BuiltMessagesPass(v, forceDefaults, dedup, cfg);
  }
}

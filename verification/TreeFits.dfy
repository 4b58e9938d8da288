/** When writing a tree succeeds: the one assertion a well-formed caller can
    still hit, a table of 64 KiB or more, needs thousands of fields. */
module TreeFits {
  import opened Bytes
  import opened Reader
  import opened WireValue
  import opened BuilderSpec
  import opened BuilderRoundTrip
  import opened TreeRoundTrip
  import opened TreeWriter
  import opened FinishedBuffer

  const MAX_FIELDS := 4000

  predicate NarrowField(f: Field) { f.Ref? ==> Narrow(f.target) }

  /** No table of the tree has more than MAX_FIELDS fields. */
  predicate Narrow(v: Value) {
    match v
    case Str(_) => true
    case Vec(es) => forall i :: 0 <= i < |es| ==> Narrow(es[i])
    case Table(fs) => |fs| <= MAX_FIELDS && forall i :: 0 <= i < |fs| ==> NarrowField(fs[i])
  }

  lemma PushBound(st: Fbb, v: nat, w: nat)
    requires IsAlign(w)
    ensures |PushElement(st, v, w).data| <= |st.data| + 15
  {
  }

  lemma AddFieldBound(st: Fbb, f: Field, off: nat)
    requires WfField(f) && off <= |st.data|
    ensures |AddField(st, f, off).data| <= |st.data| + 15
  {
    match f
    case Scalar(id, w, v, d) =>
      PushBound(st, v, w);
    case Ref(id, _) =>
      PushOffsetBound(st, off);
  }

  lemma PushOffsetBound(st: Fbb, off: nat)
    requires off <= |st.data|
    ensures |PushOffset(st, off).data| <= |st.data| + 15
  {
  }

  lemma {:induction false} AddFieldsBound(st: Fbb, fs: seq<Field>, offs: seq<nat>)
    requires |offs| == |fs| && OffsetsWithin(offs, |st.data|) && WfFields(fs) && WidthsOk(fs)
    ensures |AddFields(st, fs, offs).data| <= |st.data| + 15 * |fs|
    decreases |fs|
  {
    hide AddField, WfField;
    if fs != [] {
      var n := |fs| - 1;
      AddFieldsBound(st, fs[..n], offs[..n]);
      AddFieldBound(AddFields(st, fs[..n], offs[..n]), fs[n], offs[n]);
    }
  }

  lemma EndTableFits(st: Fbb, start: nat)
    requires TableStarted(st, start) && |st.data| - start <= 15 * MAX_FIELDS
    ensures EndTable(st, start).Some?
  {
    hide PushElement, VtableSlots, CloseTable, SharedVtable;
    PushBound(st, 0, 4);
  }

  /** Writing a narrow tree succeeds on every builder state. */
  lemma {:induction false} WriteSucceeds(st: Fbb, v: Value)
    requires Inv(st) && Wf(v) && Narrow(v)
    ensures Write(st, v).Some?
    decreases v, 1
  {
    match v
    case Str(_) =>
    case Vec(es) => WriteAllSucceeds(st, es);
    case Table(fs) =>
      WriteRefsSucceeds(st, fs);
      var (st1, offs) := WriteRefs(st, fs).value;
      WriteTableFacts(st, st1, fs, offs);
      AddFieldsBound(st1, fs, offs);
      EndTableFits(AddFields(st1, fs, offs), |st1.data|);
  }

  lemma {:induction false} WriteAllSucceeds(st: Fbb, es: seq<Value>)
    requires Inv(st) && WfAll(es) && forall i :: 0 <= i < |es| ==> Narrow(es[i])
    ensures WriteAll(st, es).Some?
    decreases es, 0
  {
    if es != [] {
      WriteSucceeds(st, es[0]);
      WriteAllSucceeds(Write(st, es[0]).value.0, es[1..]);
    }
  }

  lemma {:induction false} WriteRefSucceeds(st: Fbb, f: Field)
    requires Inv(st) && WfField(f) && NarrowField(f)
    ensures WriteRef(st, f).Some?
    decreases f, 0
  {
    if f.Ref? { WriteSucceeds(st, f.target); }
  }

  lemma {:induction false} WriteRefsSucceeds(st: Fbb, fs: seq<Field>)
    requires Inv(st) && WfFields(fs) && forall i :: 0 <= i < |fs| ==> NarrowField(fs[i])
    ensures WriteRefs(st, fs).Some?
    decreases fs, 0
  {
    if fs != [] {
      WriteRefSucceeds(st, fs[0]);
      WriteRefsSucceeds(WriteRef(st, fs[0]).value.0, fs[1..]);
    }
  }

  /** Every narrow tree has a buffer. */
  lemma EncodeSucceeds(v: Value, forceDefaults: bool, dedup: bool)
    requires Wf(v) && Narrow(v)
    ensures Encode(v, forceDefaults, dedup).Some?
  {
    hide Write, Wf, Narrow;
    EmptyInv(forceDefaults, dedup);
    WriteSucceeds(Empty(forceDefaults, dedup), v);
  }
}

/** Writing a whole tree and reading it back: the round trip of the wire
    engine, under vtable sharing, at any depth and for any number of tables. */
module TreeWriter {
  import opened Bytes
  import opened Reader
  import opened WireValue
  import opened BuilderSpec
  import opened BuilderRoundTrip
  import opened TreeRoundTrip

  /** A finished object: the builder after it, and its end-offset. */
  predicate Written(st: Fbb, r: Option<(Fbb, nat)>) {
    r.Some? ==>
      && Extends(st, r.value.0) && Inv(r.value.0)
      && 0 < r.value.1 <= |r.value.0.data|
  }

  predicate WrittenAll(st: Fbb, r: Option<(Fbb, seq<nat>)>, n: nat) {
    r.Some? ==>
      && Extends(st, r.value.0) && Inv(r.value.0)
      && |r.value.1| == n && OffsetsWithin(r.value.1, |r.value.0.data|)
  }

  predicate WfAll(es: seq<Value>) { forall i :: 0 <= i < |es| ==> Wf(es[i]) }

  predicate WfFields(fs: seq<Field>) { forall i :: 0 <= i < |fs| ==> WfField(fs[i]) }

  /** Where each field's target was written; 0 for scalars. */
  predicate RefsWritten(fs: seq<Field>, offs: seq<nat>) {
    |offs| == |fs| && forall i :: 0 <= i < |fs| ==> fs[i].Ref? ==> offs[i] > 0
  }

  /** Create the object v, children first. None is the one assertion a
      well-formed caller can still hit: a table of 64 KiB or more. */
  function Write(st: Fbb, v: Value): (r: Option<(Fbb, nat)>)
    requires Inv(st) && Wf(v)
    ensures Written(st, r)
    decreases v, 1
  {
    match v
    case Str(s) =>
      CreateStringFacts(st, s);
      var st' := CreateString(st, s);
      Some((st', |st'.data|))
    case Vec(es) =>
      var (st1, offs) :- WriteAll(st, es);
      CreateVectorFacts(st1, offs);
      var st' := CreateVector(st1, offs);
      ExtendsTrans(st, st1, st');
      Some((st', |st'.data|))
    case Table(fs) =>
      var (st1, offs) :- WriteRefs(st, fs);
      WriteTableFacts(st, st1, fs, offs);
      EndTable(AddFields(st1, fs, offs), |st1.data|)
  }

  function WriteAll(st: Fbb, es: seq<Value>): (r: Option<(Fbb, seq<nat>)>)
    requires Inv(st) && WfAll(es)
    ensures WrittenAll(st, r, |es|)
    decreases es, 0
  {
    if es == [] then
      ExtendsRefl(st);
      Some((st, []))
    else
      var (st1, o) :- Write(st, es[0]);
      var (st2, offs) :- WriteAll(st1, es[1..]);
      ExtendsTrans(st, st1, st2);
      Some((st2, [o] + offs))
  }

  /** The target of one field, or offset 0 for a scalar. */
  function WriteRef(st: Fbb, f: Field): (r: Option<(Fbb, nat)>)
    requires Inv(st) && WfField(f)
    ensures r.Some? ==>
      && Extends(st, r.value.0) && Inv(r.value.0) && r.value.1 <= |r.value.0.data|
      && (f.Ref? ==> r.value.1 > 0)
    decreases f, 0
  {
    match f
    case Scalar(_, _, _, _) =>
      ExtendsRefl(st);
      Some((st, 0))
    case Ref(_, t) => Write(st, t)
  }

  function WriteRefs(st: Fbb, fs: seq<Field>): (r: Option<(Fbb, seq<nat>)>)
    requires Inv(st) && WfFields(fs)
    ensures WrittenAll(st, r, |fs|) && (r.Some? ==> RefsWritten(fs, r.value.1))
    decreases fs, 0
  {
    if fs == [] then
      ExtendsRefl(st);
      Some((st, []))
    else
      var (st1, o) :- WriteRef(st, fs[0]);
      var (st2, offs) :- WriteRefs(st1, fs[1..]);
      ExtendsTrans(st, st1, st2);
      Some((st2, [o] + offs))
  }

  lemma WriteTableFacts(st: Fbb, st1: Fbb, fs: seq<Field>, offs: seq<nat>)
    requires Extends(st, st1) && Inv(st1) && WfFields(fs) && DistinctFields(fs)
    requires RefsWritten(fs, offs) && OffsetsWithin(offs, |st1.data|)
    ensures FieldsOk(fs, offs, |st1.data|)
    ensures var st2 := AddFields(st1, fs, offs);
      && Building(st2, |st1.data|) && Extends(st1, st2) && TableStarted(st2, |st1.data|)
      && Written(st, EndTable(st2, |st1.data|))
  {
    assert Building(st1, |st1.data|);
    assert FieldsOk(fs, offs, |st1.data|);
    AddFieldsFacts(st1, |st1.data|, fs, offs);
    hide AddFields, Building, FieldsOk;
    var st2 := AddFields(st1, fs, offs);
    TableIsStarted(st2, |st1.data|);
    if EndTable(st2, |st1.data|).Some? {
      EndTableFacts(st2, |st1.data|);
      hide EndTable, Extends;
      var st3 := EndTable(st2, |st1.data|).value.0;
      ExtendsTrans(st, st1, st2);
      ExtendsTrans(st, st2, st3);
    }
  }

  // ---------------------------------------------------------------------
  // The round trip

  /** Object v, read at end-offset o of the builder's data. */
  ghost predicate HoldsAt(st: Fbb, o: nat, v: Value) {
    o <= |st.data| && Holds(st.data, |st.data| - o, v, LayoutOf(st))
  }

  /** Whatever was finished earlier still reads the same after more writing. */
  lemma HoldsAtGrow(st: Fbb, st': Fbb, o: nat, v: Value)
    requires HoldsAt(st, o, v) && Extends(st, st')
    ensures HoldsAt(st', o, v)
  {
    HoldsExtends(st, st', o, v);
  }

  lemma {:induction false} WriteHolds(st: Fbb, v: Value)
    requires Inv(st) && Wf(v) && Write(st, v).Some?
    requires |Write(st, v).value.0.data| <= MAX_BUFFER_SIZE
    ensures HoldsAt(Write(st, v).value.0, Write(st, v).value.1, v)
    decreases v, 1
  {
    hide Inv, Extends, Holds, EndTable, AddFields, CreateString, CreateVector;
    match v
    case Str(s) =>
      CreateStringHolds(st, s);
    case Vec(es) =>
      var (st1, offs) := WriteAll(st, es).value;
      CreateVectorFacts(st1, offs);
      ExtendsSize(st1, CreateVector(st1, offs));
      WriteAllHolds(st, es);
      VectorHolds(st1, es, offs);
    case Table(fs) =>
      var (st1, offs) := WriteRefs(st, fs).value;
      WriteTableFacts(st, st1, fs, offs);
      var st2 := AddFields(st1, fs, offs);
      ExtendsSize(st1, st2);
      EndTableFacts(st2, |st1.data|);
      ExtendsSize(st2, EndTable(st2, |st1.data|).value.0);
      WriteRefsHolds(st, fs);
      TableHolds(st1, fs, offs);
  }

  lemma ExtendsSize(st: Fbb, st': Fbb)
    requires Extends(st, st')
    ensures |st.data| <= |st'.data|
  {
  }

  lemma {:induction false} WriteAllHolds(st: Fbb, es: seq<Value>)
    requires Inv(st) && WfAll(es) && WriteAll(st, es).Some?
    requires |WriteAll(st, es).value.0.data| <= MAX_BUFFER_SIZE
    ensures var (st', offs) := WriteAll(st, es).value;
      forall i :: 0 <= i < |es| ==> HoldsAt(st', offs[i], es[i])
    decreases es, 0
  {
    hide Inv, Extends, Holds, Write, HoldsAt;
    if es != [] {
      var (st1, o) := Write(st, es[0]).value;
      var (st2, offs) := WriteAll(st1, es[1..]).value;
      ExtendsSize(st1, st2);
      WriteHolds(st, es[0]);
      WriteAllHolds(st1, es[1..]);
      HoldsAtGrow(st1, st2, o, es[0]);
    }
  }

  lemma {:induction false} WriteRefsHolds(st: Fbb, fs: seq<Field>)
    requires Inv(st) && WfFields(fs) && WriteRefs(st, fs).Some?
    requires |WriteRefs(st, fs).value.0.data| <= MAX_BUFFER_SIZE
    ensures var (st', offs) := WriteRefs(st, fs).value;
      forall i :: 0 <= i < |fs| ==> fs[i].Ref? ==> HoldsAt(st', offs[i], fs[i].target)
    decreases fs, 0
  {
    hide Inv, Extends, Holds, HoldsAt, WriteRef;
    if fs != [] {
      var (st1, o) := WriteRef(st, fs[0]).value;
      var (st2, offs) := WriteRefs(st1, fs[1..]).value;
      ExtendsSize(st1, st2);
      WriteRefHolds(st, fs[0]);
      WriteRefsHolds(st1, fs[1..]);
      if fs[0].Ref? {
        HoldsAtGrow(st1, st2, o, fs[0].target);
      }
    }
  }

  lemma {:induction false} WriteRefHolds(st: Fbb, f: Field)
    requires Inv(st) && WfField(f) && WriteRef(st, f).Some?
    requires |WriteRef(st, f).value.0.data| <= MAX_BUFFER_SIZE
    ensures f.Ref? ==> HoldsAt(WriteRef(st, f).value.0, WriteRef(st, f).value.1, f.target)
    decreases f, 0
  {
    if f.Ref? {
      WriteHolds(st, f.target);
    }
  }

  /** A vector over objects that are already there. */
  lemma VectorHolds(st: Fbb, es: seq<Value>, offs: seq<nat>)
    requires Inv(st) && |offs| == |es| && OffsetsWithin(offs, |st.data|)
    requires |CreateVector(st, offs).data| <= MAX_BUFFER_SIZE
    requires forall i :: 0 <= i < |es| ==> HoldsAt(st, offs[i], es[i])
    ensures var r := CreateVector(st, offs); HoldsAt(r, |r.data|, Vec(es))
  {
    hide CreateVector, Extends, Inv, VecGet, VecSize, Holds, HoldsAt, Mult;
    CreateVectorFacts(st, offs);
    CreateVectorReads(st, offs);
    var r := CreateVector(st, offs);
    forall i | 0 <= i < |es|
      ensures HoldsAt(r, offs[i], es[i])
    {
      HoldsAtGrow(st, r, offs[i], es[i]);
    }
    VecIntro(r, es, offs);
  }

  lemma VecIntro(r: Fbb, es: seq<Value>, offs: seq<nat>)
    requires |offs| == |es| && 4 <= r.minalign && Mult(|r.data|, 4)
    requires VecSize(r.data, 0) == Some(|es|)
    requires forall i :: 0 <= i < |es| ==> VecGet(r.data, 0, i) == Some(|r.data| - offs[i])
    requires forall i :: 0 <= i < |es| ==> HoldsAt(r, offs[i], es[i])
    ensures HoldsAt(r, |r.data|, Vec(es))
  {
    hide Holds, VecGet, VecSize, Mult, HoldsAt;
    forall i | 0 <= i < |es|
      ensures ElemHolds(r.data, VecGet(r.data, 0, i), es[i], LayoutOf(r))
    {
      ElemIntro(r, offs[i], es[i]);
    }
    VecHolds(r, es);
  }

  lemma ElemIntro(r: Fbb, off: nat, e: Value)
    requires HoldsAt(r, off, e)
    ensures ElemHolds(r.data, Some(|r.data| - off), e, LayoutOf(r))
  {
    hide Holds;
  }

  lemma VecHolds(r: Fbb, es: seq<Value>)
    requires 4 <= r.minalign && Mult(|r.data|, 4) && VecSize(r.data, 0) == Some(|es|)
    requires forall i :: 0 <= i < |es| ==> ElemHolds(r.data, VecGet(r.data, 0, i), es[i], LayoutOf(r))
    ensures HoldsAt(r, |r.data|, Vec(es))
  {
    hide VecGet, VecSize, ElemHolds, Mult;
  }

  /** A table over objects that are already there. */
  lemma TableHolds(st: Fbb, fs: seq<Field>, offs: seq<nat>)
    requires Inv(st) && FieldsOk(fs, offs, |st.data|)
    requires forall i :: 0 <= i < |fs| ==> fs[i].Ref? ==> HoldsAt(st, offs[i], fs[i].target)
    requires var st2 := AddFields(st, fs, offs);
      && Building(st2, |st.data|) && Extends(st, st2) && TableStarted(st2, |st.data|)
      && EndTable(st2, |st.data|).Some?
      && |EndTable(st2, |st.data|).value.0.data| <= MAX_BUFFER_SIZE
    ensures var (st', loc) := EndTable(AddFields(st, fs, offs), |st.data|).value;
      HoldsAt(st', loc, Table(fs))
  {
    hide AddFields, EndTable, Extends, Building, FieldPlaced, Holds, FieldAt, TableStarted;
    var st2 := AddFields(st, fs, offs);
    EndTableFacts(st2, |st.data|);
    ExtendsSize(st2, EndTable(st2, |st.data|).value.0);
    StartBuilding(st);
    AddFieldsFacts(st, |st.data|, fs, offs);
    AddFieldsPlaced(st, |st.data|, fs, offs);
    forall i | 0 <= i < |fs|
      ensures TargetHolds(st2, fs[i], offs[i])
    {
      if fs[i].Ref? {
        HoldsAtGrow(st, st2, offs[i], fs[i].target);
      }
    }
    ClosedTableHolds(st2, |st.data|, fs, offs);
  }

  lemma StartBuilding(st: Fbb)
    requires Inv(st)
    ensures Building(st, |st.data|) && st.fields == []
  {
  }
}

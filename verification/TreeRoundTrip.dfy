/** Whole trees: tables with any fields, strings and vectors of offsets,
    written children first and read back through the accessors. */
module TreeRoundTrip {
  import opened Bytes
  import opened Reader
  import opened WireValue
  import opened BuilderSpec
  import opened BuilderRoundTrip

  // ---------------------------------------------------------------------
  // Fields of the table under construction

  lemma FieldAtSnoc(fields: seq<FieldLoc>, fl: FieldLoc, id: nat)
    ensures FieldAt(fields + [fl], id) == if fl.id == id then Some(fl.off) else FieldAt(fields, id)
  {
    assert (fields + [fl])[..|fields|] == fields;
  }

  lemma TrackFieldAt(p: Fbb, id: nat)
    ensures FieldAt(Track(p, id).fields, id) == Some(|p.data|)
    ensures forall j :: j != id ==> FieldAt(Track(p, id).fields, j) == FieldAt(p.fields, j)
  {
    forall j
      ensures FieldAt(Track(p, id).fields, j)
           == if j == id then Some(|p.data|) else FieldAt(p.fields, j)
    {
      FieldAtSnoc(p.fields, FieldLoc(|p.data|, id), j);
    }
  }

  /** Tracking the element just pushed keeps the table well formed. */
  lemma TrackFacts(st: Fbb, p: Fbb, start: nat, id: nat)
    requires Building(st, start) && Extends(st, p) && |p.data| > |st.data|
    requires SameTables(st, p) && IsAlign(p.minalign)
    requires IsFieldId(id) && FieldAt(st.fields, id).None?
    ensures Building(Track(p, id), start) && Extends(st, Track(p, id))
  {
    VtablesGrow(st, p);
    assert VtablesOk(Track(p, id));
    hide VtablesOk;
  }

  /** What the builder knows about a field once it has been added: a scalar is
      stored where FieldAt says, or skipped as equal to its default. */
  predicate FieldPlaced(st: Fbb, f: Field, off: nat) {
    var at := FieldAt(st.fields, f.id);
    match f
    case Scalar(_, w, v, d) => if v == d && !st.forceDefaults then at.None? else at.Some? && Placed(st, at.value, w, v)
    case Ref(_, _) => at.Some? && 0 < off < at.value && Placed(st, at.value, 4, at.value - off)
  }

  /** A field in range, whose target offset is not null. */
  predicate FieldOk(f: Field, off: nat) {
    && IsFieldId(f.id)
    && match f
       case Scalar(_, w, v, _) => IsAlign(w) && v < Pow256(w)
       case Ref(_, _) => off > 0
  }

  predicate Addable(st: Fbb, start: nat, f: Field, off: nat) {
    && Building(st, start) && FieldAt(st.fields, f.id).None? && off <= |st.data| && FieldOk(f, off)
  }

  lemma AddFieldFacts(st: Fbb, start: nat, f: Field, off: nat)
    requires Addable(st, start, f, off)
    ensures var r := AddField(st, f, off);
      && Building(r, start) && Extends(st, r)
      && (forall j :: j != f.id ==> FieldAt(r.fields, j) == FieldAt(st.fields, j))
  {
    hide PushElement, PushOffset, VtablesOk;
    match f
    case Scalar(id, w, v, d) =>
      if v != d || st.forceDefaults {
        PushMeta(st, v, w, 0);
        PushElementFacts(st, v, w);
        TrackFacts(st, PushElement(st, v, w), start, id);
        TrackFieldAt(PushElement(st, v, w), id);
      }
    case Ref(id, _) =>
      PushMeta(st, 0, 4, off);
      PushOffsetExtends(st, off);
      TrackFacts(st, PushOffset(st, off), start, id);
      TrackFieldAt(PushOffset(st, off), id);
  }

  lemma PlacedTrack(p: Fbb, id: nat, w: nat, v: nat)
    requires Placed(p, |p.data|, w, v)
    ensures Placed(Track(p, id), |p.data|, w, v)
  {
  }

  lemma AddFieldPlaced(st: Fbb, start: nat, f: Field, off: nat)
    requires Addable(st, start, f, off) && |AddField(st, f, off).data| <= MAX_BUFFER_SIZE
    ensures FieldPlaced(AddField(st, f, off), f, off)
  {
    hide PushElement, PushOffset, VtablesOk, Placed;
    match f
    case Scalar(id, w, v, d) =>
      if v != d || st.forceDefaults {
        PushMeta(st, v, w, 0);
        PushElementFacts(st, v, w);
        TrackFacts(st, PushElement(st, v, w), start, id);
        TrackFieldAt(PushElement(st, v, w), id);
        PlacedTrack(PushElement(st, v, w), id, w, v);
      }
    case Ref(id, _) =>
      PushMeta(st, 0, 4, off);
      PushOffsetExtends(st, off);
      PushOffsetFacts(st, off);
      TrackFacts(st, PushOffset(st, off), start, id);
      TrackFieldAt(PushOffset(st, off), id);
      PlacedTrack(PushOffset(st, off), id, 4, |PushOffset(st, off).data| - off);
  }

  /** The fields a table may be given: distinct, in range, with real targets. */
  predicate FieldsOk(fs: seq<Field>, offs: seq<nat>, size: nat) {
    && |offs| == |fs| && OffsetsWithin(offs, size) && WidthsOk(fs) && DistinctFields(fs)
    && forall i :: 0 <= i < |fs| ==> FieldOk(fs[i], offs[i])
  }

  lemma FieldsOkPrefix(fs: seq<Field>, offs: seq<nat>, size: nat)
    requires FieldsOk(fs, offs, size) && fs != []
    ensures FieldsOk(fs[..|fs| - 1], offs[..|fs| - 1], size)
  {
  }

  lemma {:induction false} AddFieldsFacts(st: Fbb, start: nat, fs: seq<Field>, offs: seq<nat>)
    requires Building(st, start) && st.fields == [] && FieldsOk(fs, offs, |st.data|)
    ensures var r := AddFields(st, fs, offs);
      && Building(r, start) && Extends(st, r)
      && forall id :: !HasField(fs, id) ==> FieldAt(r.fields, id).None?
    decreases |fs|
  {
    if fs != [] {
      var n := |fs| - 1;
      FieldsOkPrefix(fs, offs, |st.data|);
      AddFieldsFacts(st, start, fs[..n], offs[..n]);
      var r := AddFields(st, fs[..n], offs[..n]);
      assert !HasField(fs[..n], fs[n].id);
      AddFieldFacts(r, start, fs[n], offs[n]);
      hide Building, AddField;
      ExtendsTrans(st, r, AddField(r, fs[n], offs[n]));
      forall id | !HasField(fs, id)
        ensures !HasField(fs[..n], id) && id != fs[n].id
      {
      }
    }
  }

  lemma NextAddable(st: Fbb, start: nat, fs: seq<Field>, offs: seq<nat>)
    requires Building(st, start) && st.fields == [] && FieldsOk(fs, offs, |st.data|) && fs != []
    ensures var n := |fs| - 1;
      && FieldsOk(fs[..n], offs[..n], |st.data|)
      && Addable(AddFields(st, fs[..n], offs[..n]), start, fs[n], offs[n])
  {
    var n := |fs| - 1;
    FieldsOkPrefix(fs, offs, |st.data|);
    AddFieldsFacts(st, start, fs[..n], offs[..n]);
    assert !HasField(fs[..n], fs[n].id);
  }

  lemma FieldPlacedGrow(st: Fbb, st': Fbb, f: Field, off: nat)
    requires FieldPlaced(st, f, off) && Extends(st, st')
    requires FieldAt(st'.fields, f.id) == FieldAt(st.fields, f.id)
    ensures FieldPlaced(st', f, off)
  {
    var at := FieldAt(st.fields, f.id);
    if at.Some? {
      match f
      case Scalar(_, w, v, _) => PlacedGrow(st, st', at.value, w, v);
      case Ref(_, _) => PlacedGrow(st, st', at.value, 4, at.value - off);
    }
  }

  /** After the whole sequence of AddElement and AddOffset calls, each field is
      where the builder recorded it. */
  lemma {:induction false} AddFieldsPlaced(st: Fbb, start: nat, fs: seq<Field>, offs: seq<nat>)
    requires Building(st, start) && st.fields == [] && FieldsOk(fs, offs, |st.data|)
    requires |AddFields(st, fs, offs).data| <= MAX_BUFFER_SIZE
    ensures forall i :: 0 <= i < |fs| ==> FieldPlaced(AddFields(st, fs, offs), fs[i], offs[i])
    decreases |fs|
  {
    hide Building, AddField, FieldPlaced, Extends, Addable, FieldOk, FieldAt;
    if fs != [] {
      var n := |fs| - 1;
      NextAddable(st, start, fs, offs);
      AddFieldsPlaced(st, start, fs[..n], offs[..n]);
      var r := AddFields(st, fs[..n], offs[..n]);
      AddFieldFacts(r, start, fs[n], offs[n]);
      AddFieldPlaced(r, start, fs[n], offs[n]);
      var r' := AddField(r, fs[n], offs[n]);
      forall i | 0 <= i < n
        ensures FieldPlaced(r', fs[i], offs[i])
      {
        assert FieldPlaced(r, fs[..n][i], offs[..n][i]);
        FieldPlacedGrow(r, r', fs[i], offs[i]);
      }
    }
  }

  // ---------------------------------------------------------------------
  // Finished tables

  lemma HoldsExtends(st: Fbb, st': Fbb, off: nat, v: Value)
    requires Extends(st, st') && off <= |st.data| && Holds(st.data, |st.data| - off, v, LayoutOf(st))
    ensures off <= |st'.data| && Holds(st'.data, |st'.data| - off, v, LayoutOf(st'))
  {
    HoldsGrow(Added(st, st'), st.data, |st.data| - off, v, LayoutOf(st), LayoutOf(st'));
  }

  /** The targets of reference fields, already in the data. */
  ghost predicate TargetHolds(st: Fbb, f: Field, off: nat) {
    f.Ref? ==> off <= |st.data| && Holds(st.data, |st.data| - off, f.target, LayoutOf(st))
  }

  lemma ScalarHolds(st: Fbb, loc: nat, f: Field, st': Fbb)
    requires f.Scalar? && FieldPlaced(st, f, 0) && Extends(st, st') && loc <= |st'.data|
    requires FieldAt(st.fields, f.id).Some? ==> FieldAt(st.fields, f.id).value < loc
    requires FieldOffset(st'.data, |st'.data| - loc, f.id) == Some(SlotValue(st, loc, f.id))
    ensures FieldHolds(st'.data, |st'.data| - loc, f, LayoutOf(st'))
  {
    var at := FieldAt(st.fields, f.id);
    if at.Some? {
      PlacedGrow(st, st', at.value, f.width, f.value);
    }
  }

  lemma RefHolds(st: Fbb, loc: nat, f: Field, off: nat, st': Fbb)
    requires f.Ref? && FieldPlaced(st, f, off) && Extends(st, st') && loc <= |st'.data|
    requires FieldAt(st.fields, f.id).value < loc && TargetHolds(st, f, off)
    requires FieldOffset(st'.data, |st'.data| - loc, f.id) == Some(SlotValue(st, loc, f.id))
    ensures FieldHolds(st'.data, |st'.data| - loc, f, LayoutOf(st'))
  {
    hide FieldOffset, Holds, Extends, FieldAt, Rd, GetPointer;
    var o := FieldAt(st.fields, f.id).value;
    PlacedGrow(st, st', o, 4, o - off);
    HoldsExtends(st, st', off, f.target);
    PointerReads(st'.data, |st'.data| - loc, f.id, loc - o, o - off);
  }

  lemma PointerReads(b: Buffer, p: int, id: nat, x: nat, u: nat)
    requires x > 0 && FieldOffset(b, p, id) == Some(x) && Rd(b, p + x, 4) == Some(u)
    ensures GetPointer(b, p, id) == Some(Some(p + x + u))
  {
  }

  lemma ClosedFieldHolds(st: Fbb, start: nat, f: Field, off: nat)
    requires Closable(st, start) && IsFieldId(f.id)
    requires FieldPlaced(st, f, off) && TargetHolds(st, f, off)
    requires |EndTable(st, start).value.0.data| <= MAX_BUFFER_SIZE
    ensures var (st', loc) := EndTable(st, start).value;
      FieldHolds(st'.data, |st'.data| - loc, f, LayoutOf(st'))
  {
    hide EndTable, Building, TableStarted, FieldHolds, Extends, FieldOffset, SlotValue, Holds, Inv, FieldPlaced, FieldAt;
    EndTableFacts(st, start);
    EndTableReads(st, start, f.id);
    EndTableLoc(st, start);
    FieldAtBounds(st, start, f.id);
    RefIsPlaced(st, f, off);
    var (st', loc) := EndTable(st, start).value;
    match f
    case Scalar(_, _, _, _) => ScalarHolds(st, loc, f, st');
    case Ref(_, _) => RefHolds(st, loc, f, off, st');
  }

  lemma RefIsPlaced(st: Fbb, f: Field, off: nat)
    requires FieldPlaced(st, f, off)
    ensures f.Ref? ==> FieldAt(st.fields, f.id).Some?
    ensures f.Scalar? ==> FieldPlaced(st, f, 0)
  {
  }

  lemma EndTableLoc(st: Fbb, start: nat)
    requires Closable(st, start)
    ensures |st.data| < EndTable(st, start).value.1
  {
    BodyFacts(st);
  }

  /** The finished table reads back field by field, and nothing else is there. */
  lemma ClosedTableHolds(st: Fbb, start: nat, fs: seq<Field>, offs: seq<nat>)
    requires Closable(st, start) && |offs| == |fs|
    requires |EndTable(st, start).value.0.data| <= MAX_BUFFER_SIZE
    requires forall i :: 0 <= i < |fs| ==>
      IsFieldId(fs[i].id) && FieldPlaced(st, fs[i], offs[i]) && TargetHolds(st, fs[i], offs[i])
    requires forall id :: !HasField(fs, id) ==> FieldAt(st.fields, id).None?
    ensures var (st', loc) := EndTable(st, start).value;
      Holds(st'.data, |st'.data| - loc, Table(fs), LayoutOf(st'))
  {
    hide EndTable, Building, TableStarted, FieldHolds, Extends, FieldPlaced, FieldOffset, Inv, TargetHolds, FieldAt, VtableInside;
    EndTableFacts(st, start);
    EndTableVtable(st, start);
    var (st', loc) := EndTable(st, start).value;
    forall i | 0 <= i < |fs|
      ensures FieldHolds(st'.data, |st'.data| - loc, fs[i], LayoutOf(st'))
    {
      ClosedFieldHolds(st, start, fs[i], offs[i]);
    }
    forall id | IsFieldId(id) && !HasField(fs, id)
      ensures FieldOffset(st'.data, |st'.data| - loc, id) == Some(0)
    {
      EndTableReads(st, start, id);
    }
  }

  // ---------------------------------------------------------------------
  // Strings

  lemma PushElementNoPad(st: Fbb, v: nat, w: nat)
    requires Mult(|st.data|, w)
    ensures PushElement(st, v, w).data == Le(v, w) + st.data
  {
    PreAlignFacts(st, 0, w);
    assert AlignTo(st, w).data == st.data;
  }

  /** Between objects: any growth of the data keeps the builder's invariant. */
  lemma InvGrow(st: Fbb, st': Fbb)
    requires Inv(st) && Extends(st, st') && SameTables(st, st') && IsAlign(st'.minalign)
    ensures Inv(st')
  {
    VtablesGrow(st, st');
  }

  /** The string's content before its length is pushed. */
  function StringBody(st: Fbb, s: seq<Byte>): Fbb {
    PushBytes(PushBytes(PreAlign(st, |s| + 1, 4), Zeros(1)), s)
  }

  lemma StringBodyFacts(st: Fbb, s: seq<Byte>)
    ensures var c := StringBody(st, s);
      && Extends(st, c) && SameTables(st, c) && c.minalign == Max(st.minalign, 4)
      && Mult(|c.data|, 4) && |s| < |c.data|
      && c.data[..|s|] == s && c.data[|s|] == 0
  {
    PreAlignFacts(st, |s| + 1, 4);
    PreAlignMeta(st, |s| + 1, 4);
    hide PreAlign, Extends;
    var a := PreAlign(st, |s| + 1, 4);
    ContentFacts(a, s);
    ExtendsTrans(st, a, StringBody(st, s));
  }

  lemma PreAlignMeta(st: Fbb, len: nat, a: nat)
    requires a >= 1
    ensures SameTables(st, PreAlign(st, len, a))
  {
  }

  lemma ContentFacts(a: Fbb, s: seq<Byte>)
    ensures var c := PushBytes(PushBytes(a, Zeros(1)), s);
      && Extends(a, c) && SameTables(a, c) && c.minalign == a.minalign
      && |c.data| == |a.data| + |s| + 1
      && c.data[..|s|] == s && c.data[|s|] == 0
  {
    var c := PushBytes(PushBytes(a, Zeros(1)), s);
    assert c.data == s + (Zeros(1) + a.data);
    assert c.data[|c.data| - |a.data|..] == a.data;
  }

  lemma CreateStringFacts(st: Fbb, s: seq<Byte>)
    requires Inv(st)
    ensures var r := CreateString(st, s);
      && Extends(st, r) && Inv(r) && 4 <= r.minalign && 0 < |r.data| && Mult(|r.data|, 4)
  {
    hide Extends, Mult, PushElement, SameTables, StringBody;
    StringBodyFacts(st, s);
    var c := StringBody(st, s);
    assert CreateString(st, s) == PushElement(c, |s|, 4) by { StringDef(st, s); }
    PushElementExtends(c, |s|, 4);
    PushMeta(c, |s|, 4, 0);
    ExtendsTrans(st, c, CreateString(st, s));
    SameTablesTrans(st, c, CreateString(st, s));
    InvAlign(st);
    InvGrow(st, CreateString(st, s));
  }

  lemma StringDef(st: Fbb, s: seq<Byte>)
    ensures CreateString(st, s) == PushElement(StringBody(st, s), |s|, 4)
  {
  }

  lemma InvAlign(st: Fbb)
    requires Inv(st)
    ensures IsAlign(st.minalign)
  {
  }

  lemma SameTablesTrans(a: Fbb, b: Fbb, c: Fbb)
    requires SameTables(a, b) && SameTables(b, c)
    ensures SameTables(a, c)
  {
  }

  lemma StringReads(c: Buffer, s: seq<Byte>)
    requires |s| < |c| && |s| < TWO32 && c[..|s|] == s && c[|s|] == 0
    ensures var b := Le(|s|, 4) + c;
      StrBytes(b, 0) == Some(s) && Rd(b, 4 + |s|, 1) == Some(0)
  {
    var b := Le(|s|, 4) + c;
    LengthReads(|s|, c);
    hide Le, De;
    assert b[4..4 + |s|] == s;
    ZeroReads(b, 4 + |s|);
  }

  lemma LengthReads(n: nat, c: Buffer)
    requires n < TWO32
    ensures Rd(Le(n, 4) + c, 0, 4) == Some(n)
  {
    Widths();
    DeLe(n, 4);
    assert (Le(n, 4) + c)[0..4] == Le(n, 4);
  }

  lemma ZeroReads(b: Buffer, p: nat)
    requires p < |b| && b[p] == 0
    ensures Rd(b, p, 1) == Some(0)
  {
    assert b[p..p + 1] == [0];
    assert De([0]) == 0;
  }

  lemma CreateStringHolds(st: Fbb, s: seq<Byte>)
    requires Inv(st) && |CreateString(st, s).data| <= MAX_BUFFER_SIZE
    ensures Holds(CreateString(st, s).data, 0, Str(s), LayoutOf(CreateString(st, s)))
  {
    CreateStringFacts(st, s);
    StringBodyFacts(st, s);
    PushElementNoPad(StringBody(st, s), |s|, 4);
    hide PushElement, StringBody, StrBytes, Rd, Extends, Inv;
    StringDef(st, s);
    StringReads(StringBody(st, s).data, s);
  }

  // ---------------------------------------------------------------------
  // Vectors of offsets

  lemma {:induction false} PushOffsetsFacts(st: Fbb, offs: seq<nat>)
    requires Mult(|st.data|, 4) && OffsetsWithin(offs, |st.data|)
    ensures var r := PushOffsets(st, offs);
      && Extends(st, r) && SameTables(st, r)
      && |r.data| == |st.data| + 4 * |offs| && Mult(|r.data|, 4)
      && r.minalign == (if offs == [] then st.minalign else Max(st.minalign, 4))
    decreases |offs|
  {
    hide Extends, Mult, PushOffset, SameTables;
    if offs == [] {
      ExtendsRefl(st);
    } else {
      PushOffsetsFacts(st, offs[1..]);
      var m := PushOffsets(st, offs[1..]);
      PushOffsetExtends(m, offs[0]);
      PushOffsetTight(m, offs[0]);
      PushMeta(m, 0, 4, offs[0]);
      ExtendsTrans(st, m, PushOffset(m, offs[0]));
      SameTablesTrans(st, m, PushOffset(m, offs[0]));
    }
  }

  lemma ExtendsRefl(st: Fbb)
    ensures Extends(st, st) && SameTables(st, st)
  {
  }

  /** Element i, although pushed in reverse, ends up i-th from the low end and
      leads to the i-th target. */
  predicate ElemPlaced(r: Fbb, offs: seq<nat>, i: nat)
    requires i < |offs|
  {
    && 4 * i + offs[i] <= |r.data|
    && Placed(r, |r.data| - 4 * i, 4, |r.data| - 4 * i - offs[i])
  }

  lemma {:induction false} PushOffsetsPlaced(st: Fbb, offs: seq<nat>)
    requires Mult(|st.data|, 4) && OffsetsWithin(offs, |st.data|)
    requires |PushOffsets(st, offs).data| <= MAX_BUFFER_SIZE
    ensures forall i :: 0 <= i < |offs| ==> ElemPlaced(PushOffsets(st, offs), offs, i)
    decreases |offs|
  {
    hide Placed, Extends, Mult, PushOffset, ElemPlaced, SameTables;
    if offs != [] {
      PushOffsetsFacts(st, offs[1..]);
      var m := PushOffsets(st, offs[1..]);
      PushOffsetExtends(m, offs[0]);
      PushOffsetTight(m, offs[0]);
      PushOffsetsPlaced(st, offs[1..]);
      PushOffsetFacts(m, offs[0]);
      var r := PushOffset(m, offs[0]);
      FirstElem(r, offs);
      forall i | 0 < i < |offs|
        ensures ElemPlaced(r, offs, i)
      {
        LaterElem(m, r, offs, i);
      }
    }
  }

  lemma FirstElem(r: Fbb, offs: seq<nat>)
    requires offs != [] && offs[0] <= |r.data| && Placed(r, |r.data|, 4, |r.data| - offs[0])
    ensures ElemPlaced(r, offs, 0)
  {
  }

  lemma LaterElem(m: Fbb, r: Fbb, offs: seq<nat>, i: nat)
    requires 0 < i < |offs| && ElemPlaced(m, offs[1..], i - 1)
    requires Extends(m, r) && |r.data| == |m.data| + 4
    ensures ElemPlaced(r, offs, i)
  {
    PlacedGrow(m, r, |m.data| - 4 * (i - 1), 4, |m.data| - 4 * (i - 1) - offs[i]);
  }

  /** The vector's elements before its length is pushed. */
  function VectorBody(st: Fbb, offs: seq<nat>): Fbb
    requires OffsetsWithin(offs, |st.data|)
  {
    PushOffsets(PreAlign(st, |offs| * 4, 4), offs)
  }

  lemma VectorBodyFacts(st: Fbb, offs: seq<nat>)
    requires OffsetsWithin(offs, |st.data|)
    ensures var c := VectorBody(st, offs);
      && Extends(st, c) && SameTables(st, c) && c.minalign == Max(st.minalign, 4)
      && Mult(|c.data|, 4) && |c.data| >= 4 * |offs|
      && CreateVector(st, offs) == PushElement(c, |offs|, 4)
  {
    PreAlignFacts(st, |offs| * 4, 4);
    PreAlignMeta(st, |offs| * 4, 4);
    var a := PreAlign(st, |offs| * 4, 4);
    MultSub(|a.data|, |offs|);
    hide PreAlign, Mult, Extends, SameTables;
    PushOffsetsFacts(a, offs);
    ExtendsTrans(st, a, VectorBody(st, offs));
    SameTablesTrans(st, a, VectorBody(st, offs));
  }

  lemma MultSub(n: nat, k: nat)
    requires Mult(n + k * 4, 4)
    ensures Mult(n, 4)
  {
  }

  lemma CreateVectorFacts(st: Fbb, offs: seq<nat>)
    requires Inv(st) && OffsetsWithin(offs, |st.data|)
    ensures var r := CreateVector(st, offs);
      && Extends(st, r) && Inv(r) && 4 <= r.minalign && 0 < |r.data| && Mult(|r.data|, 4)
  {
    hide Extends, Mult, PushElement, SameTables, VectorBody, CreateVector;
    VectorBodyFacts(st, offs);
    var c := VectorBody(st, offs);
    PushElementExtends(c, |offs|, 4);
    PushMeta(c, |offs|, 4, 0);
    ExtendsTrans(st, c, CreateVector(st, offs));
    SameTablesTrans(st, c, CreateVector(st, offs));
    InvAlign(st);
    InvGrow(st, CreateVector(st, offs));
  }

  /** Get(i) on the finished vector leads to the i-th object, in order. */
  lemma VectorReads(c: Fbb, offs: seq<nat>, i: nat)
    requires i < |offs| && ElemPlaced(c, offs, i)
    ensures var b := Le(|offs|, 4) + c.data; VecGet(b, 0, i) == Some(|b| - offs[i])
  {
    RdGrow(Le(|offs|, 4), c.data, 4 * i, 4);
  }

  lemma CreateVectorReads(st: Fbb, offs: seq<nat>)
    requires Inv(st) && OffsetsWithin(offs, |st.data|)
    requires |CreateVector(st, offs).data| <= MAX_BUFFER_SIZE
    ensures var b := CreateVector(st, offs).data;
      && VecSize(b, 0) == Some(|offs|)
      && forall i :: 0 <= i < |offs| ==> VecGet(b, 0, i) == Some(|b| - offs[i])
  {
    hide Extends, PushElement, SameTables, PushOffsets, CreateVector, PreAlign, ElemPlaced, Rd, VecGet, Le, Mult;
    VectorBodyFacts(st, offs);
    var c := VectorBody(st, offs);
    PushElementNoPad(c, |offs|, 4);
    var b := CreateVector(st, offs).data;
    LengthReads(|offs|, c.data);
    VectorBodyPlaced(st, offs);
    forall i | 0 <= i < |offs|
      ensures VecGet(b, 0, i) == Some(|b| - offs[i])
    {
      VectorReads(c, offs, i);
    }
  }

  lemma VectorBodyPlaced(st: Fbb, offs: seq<nat>)
    requires OffsetsWithin(offs, |st.data|) && |VectorBody(st, offs).data| <= MAX_BUFFER_SIZE
    ensures forall i :: 0 <= i < |offs| ==> ElemPlaced(VectorBody(st, offs), offs, i)
  {
    PreAlignFacts(st, |offs| * 4, 4);
    var a := PreAlign(st, |offs| * 4, 4);
    MultSub(|a.data|, |offs|);
    hide PreAlign, Mult, ElemPlaced, Extends;
    PushOffsetsPlaced(a, offs);
  }
}

/** What a closed table looks like beyond what its accessors read: its vtable is
    shared whenever an equal one is there, no vtable is written twice, each is no
    longer than its last field needs, and it records the table's size. */
module TableLayout {
  import opened Bytes
  import opened Reader
  import opened WireValue
  import opened BuilderSpec
  import opened BuilderRoundTrip
  import opened TreeRoundTrip
  import opened TreeWriter

  // ---------------------------------------------------------------------
  // Sharing

  /** The bytes of the vtable at end-offset o; its first entry is its size. */
  function VtBytes(data: Buffer, o: nat): seq<Byte>
    requires VtOk(data, o)
  {
    data[|data| - o..][..Rd(data, |data| - o, 2).value]
  }

  lemma VtBytesGrow(st: Fbb, st': Fbb, o: nat)
    requires Extends(st, st') && VtOk(st.data, o)
    ensures VtOk(st'.data, o) && VtBytes(st'.data, o) == VtBytes(st.data, o)
  {
    VtOkGrow(st, st', o);
    RdGrow(Added(st, st'), st.data, |st.data| - o, 2);
    assert st'.data[|st'.data| - o..] == st.data[|st.data| - o..];
  }

  /** Remembered vtables are all different. */
  predicate NoTwins(st: Fbb)
    requires VtablesOk(st)
  {
    forall j, k :: 0 <= j < k < |st.vtables| ==> VtBytes(st.data, st.vtables[j]) != VtBytes(st.data, st.vtables[k])
  }

  lemma NoTwinsGrow(st: Fbb, st': Fbb)
    requires Extends(st, st') && VtablesOk(st) && NoTwins(st) && st'.vtables == st.vtables
    ensures VtablesOk(st') && NoTwins(st')
  {
    hide VtBytes, Extends, VtOk;
    VtablesGrow(st, st');
    forall k | 0 <= k < |st.vtables| ensures VtBytes(st'.data, st.vtables[k]) == VtBytes(st.data, st.vtables[k]) {
      VtBytesGrow(st, st', st.vtables[k]);
    }
  }

  /** Where the table at end-offset loc has its vtable, counted from the end. */
  function VtableOf(data: Buffer, loc: nat): int
    requires VTable(data, |data| - loc).Some?
  {
    |data| - VTable(data, |data| - loc).value
  }

  /** An equal vtable is already there. */
  predicate Twin(st: Fbb, o: nat, vt: seq<Byte>) {
    o in st.vtables && VtOk(st.data, o) && VtBytes(st.data, o) == vt
  }

  lemma TwinIsSame(st: Fbb, body: Fbb, o: nat, vt: seq<Byte>)
    requires Extends(st, body) && Twin(st, o, vt)
    ensures SameVtable(body.data, o, vt)
  {
    VtBytesGrow(st, body, o);
  }

  lemma SameIsTwin(st: Fbb, body: Fbb, o: nat, slots: seq<nat>)
    requires Extends(st, body) && o in st.vtables && VtOk(st.data, o) && SlotsOk(slots)
    requires SameVtable(body.data, o, EncodeSlots(slots))
    ensures Twin(st, o, EncodeSlots(slots))
  {
    VtBytesGrow(st, body, o);
    SlotReads(body.data, o, slots, 0);
  }

  /** The vtable of a table in place, as its bytes. */
  lemma TableBytes(data: Buffer, loc: nat, vtUse: nat, slots: seq<nat>)
    requires TableAt(data, loc, vtUse, slots) && |data| <= MAX_BUFFER_SIZE && SlotsOk(slots) && VtOk(data, vtUse)
    ensures VTable(data, |data| - loc).Some? && VtableOf(data, loc) == vtUse
    ensures VtBytes(data, vtUse) == EncodeSlots(slots)
  {
    HeadReads(data, loc, vtUse, slots);
    SlotReads(data, vtUse, slots, 0);
  }

  /** Sharing is complete: a closed table's vtable is always among the remembered
      ones. With sharing on, and an equal one remembered before, nothing is added
      and the table points at that one; otherwise its own is written in front of
      it and remembered. */
  lemma SharesExactly(st: Fbb, start: nat)
    requires Closable(st, start) && |EndTable(st, start).value.0.data| <= MAX_BUFFER_SIZE
    ensures var (st', loc) := EndTable(st, start).value;
      && VTable(st'.data, |st'.data| - loc).Some? && 0 <= VtableOf(st'.data, loc)
      && var o := VtableOf(st'.data, loc) as nat;
         && o in st'.vtables && VtOk(st'.data, o)
         && var vt := VtBytes(st'.data, o);
            if st.dedup && exists t :: Twin(st, t, vt) then
              Twin(st, o, vt) && st'.vtables == st.vtables && |st'.data| == loc
            else
              st'.vtables == st.vtables + [o] && o == |st'.data| == loc + |vt|
  {
    hide PushElement, VtableSlots, CloseTable, TableAt, Extends, SameVtable, EncodeSlots, VtOk, VtBytes, Twin, FindVtable;
    BodyFacts(st);
    var body := PushElement(st, 0, 4);
    var slots := VtableSlots(st, |body.data|, |body.data| - start);
    VtableSlotsFacts(st, start, |body.data|, |body.data| - start, 4);
    var found := SharedVtable(st, body, slots);
    CloseLayout(st, body, slots, found);
    CloseInv(st, body, slots, found);
    var st' := EndTable(st, start).value.0;
    var o := VtUse(body, slots, found);
    if found.Some? {
      SameIsTwin(st, body, o, slots);
    } else if st.dedup && exists t :: Twin(st, t, EncodeSlots(slots)) {
      var t :| Twin(st, t, EncodeSlots(slots));
      TwinIn(st, t, EncodeSlots(slots));
      TwinIsSame(st, body, t, EncodeSlots(slots));
    }
    Remembered(st', o);
    TableBytes(st'.data, |body.data|, o, slots);
  }

  lemma Remembered(st: Fbb, o: nat)
    requires VtablesOk(st) && o in st.vtables
    ensures VtOk(st.data, o)
  {
    hide VtOk;
  }

  lemma TwinIn(st: Fbb, o: nat, vt: seq<Byte>)
    requires Twin(st, o, vt)
    ensures o in st.vtables
  {
  }

  lemma NotTwin(st: Fbb, o: nat, vt: seq<Byte>)
    requires !Twin(st, o, vt) && o in st.vtables && VtOk(st.data, o)
    ensures VtBytes(st.data, o) != vt
  {
  }

  /** With sharing on, closing a table leaves no two equal vtables. */
  lemma ClosedNoTwins(st: Fbb, start: nat)
    requires Closable(st, start) && |EndTable(st, start).value.0.data| <= MAX_BUFFER_SIZE
    requires st.dedup && VtablesOk(st) && NoTwins(st)
    ensures var st' := EndTable(st, start).value.0;
      VtablesOk(st') && NoTwins(st')
  {
    hide EndTable, Extends, VtOk, VtBytes, Building, TableStarted;
    SharesExactly(st, start);
    EndTableFacts(st, start);
    var (st', loc) := EndTable(st, start).value;
    var o := VtableOf(st'.data, loc) as nat;
    if st'.vtables == st.vtables {
      NoTwinsGrow(st, st');
    } else {
      forall j, k | 0 <= j < k < |st'.vtables|
        ensures VtBytes(st'.data, st'.vtables[j]) != VtBytes(st'.data, st'.vtables[k])
      {
        VtBytesGrow(st, st', st.vtables[j]);
        if k < |st.vtables| {
          VtBytesGrow(st, st', st.vtables[k]);
        } else {
          NotTwin(st, st.vtables[j], VtBytes(st'.data, o));
        }
      }
    }
  }

  /** The builder's vtables while a whole tree is written. */
  predicate Sharing(st: Fbb) { st.dedup && VtablesOk(st) && NoTwins(st) }

  lemma SharingGrow(st: Fbb, st': Fbb)
    requires Sharing(st) && Extends(st, st') && st'.vtables == st.vtables
    ensures Sharing(st')
  {
    hide NoTwins, VtablesOk;
    NoTwinsGrow(st, st');
  }

  /** With sharing on, no tree, however many tables it has, leaves two equal
      vtables in the buffer. */
  lemma {:induction false} WriteShares(st: Fbb, v: Value)
    requires Inv(st) && Wf(v) && Sharing(st) && Write(st, v).Some? && |Write(st, v).value.0.data| <= MAX_BUFFER_SIZE
    ensures Sharing(Write(st, v).value.0)
    decreases v, 1
  {
    hide Inv, Extends, Sharing, EndTable, AddFields, CreateString, CreateVector;
    match v
    case Str(s) =>
      CreateStringFacts(st, s);
      StringTables(st, s);
      SharingGrow(st, CreateString(st, s));
    case Vec(es) =>
      var (st1, offs) := WriteAll(st, es).value;
      CreateVectorFacts(st1, offs);
      ExtendsSize(st1, CreateVector(st1, offs));
      WriteAllShares(st, es);
      VectorTables(st1, offs);
      SharingGrow(st1, CreateVector(st1, offs));
    case Table(fs) =>
      var (st1, offs) := WriteRefs(st, fs).value;
      WriteTableFacts(st, st1, fs, offs);
      var st2 := AddFields(st1, fs, offs);
      EndTableFacts(st2, |st1.data|);
      ExtendsSize(st1, st2);
      ExtendsSize(st2, EndTable(st2, |st1.data|).value.0);
      WriteRefsShares(st, fs);
      FieldsTables(st1, fs, offs);
      SharingGrow(st1, st2);
      CloseShares(st2, |st1.data|);
  }

  lemma CloseShares(st: Fbb, start: nat)
    requires Closable(st, start) && |EndTable(st, start).value.0.data| <= MAX_BUFFER_SIZE && Sharing(st)
    ensures Sharing(EndTable(st, start).value.0)
  {
    ClosedNoTwins(st, start);
    EndTableFacts(st, start);
    hide EndTable, NoTwins, VtablesOk;
  }

  lemma {:induction false} WriteAllShares(st: Fbb, es: seq<Value>)
    requires Inv(st) && WfAll(es) && Sharing(st) && WriteAll(st, es).Some? && |WriteAll(st, es).value.0.data| <= MAX_BUFFER_SIZE
    ensures Sharing(WriteAll(st, es).value.0)
    decreases es, 0
  {
    hide Inv, Extends, Sharing, Write;
    if es != [] {
      var (st1, o) := Write(st, es[0]).value;
      var (st2, offs) := WriteAll(st1, es[1..]).value;
      ExtendsSize(st1, st2);
      WriteShares(st, es[0]);
      WriteAllShares(st1, es[1..]);
    }
  }

  lemma {:induction false} WriteRefsShares(st: Fbb, fs: seq<Field>)
    requires Inv(st) && WfFields(fs) && Sharing(st) && WriteRefs(st, fs).Some? && |WriteRefs(st, fs).value.0.data| <= MAX_BUFFER_SIZE
    ensures Sharing(WriteRefs(st, fs).value.0)
    decreases fs, 0
  {
    hide Inv, Extends, Sharing, WriteRef;
    if fs != [] {
      var (st1, o) := WriteRef(st, fs[0]).value;
      var (st2, offs) := WriteRefs(st1, fs[1..]).value;
      ExtendsSize(st1, st2);
      WriteRefShares(st, fs[0]);
      WriteRefsShares(st1, fs[1..]);
    }
  }

  lemma {:induction false} WriteRefShares(st: Fbb, f: Field)
    requires Inv(st) && WfField(f) && Sharing(st) && WriteRef(st, f).Some? && |WriteRef(st, f).value.0.data| <= MAX_BUFFER_SIZE
    ensures Sharing(WriteRef(st, f).value.0)
    decreases f, 0
  {
    if f.Ref? { WriteShares(st, f.target); }
  }

  lemma StringTables(st: Fbb, s: seq<Byte>)
    ensures CreateString(st, s).vtables == st.vtables
  {
  }

  lemma {:induction false} OffsetsTables(st: Fbb, offs: seq<nat>)
    requires OffsetsWithin(offs, |st.data|)
    ensures PushOffsets(st, offs).vtables == st.vtables
    decreases |offs|
  {
    if offs != [] { OffsetsTables(st, offs[1..]); }
  }

  lemma VectorTables(st: Fbb, offs: seq<nat>)
    requires OffsetsWithin(offs, |st.data|)
    ensures CreateVector(st, offs).vtables == st.vtables
  {
    OffsetsTables(PreAlign(st, |offs| * 4, 4), offs);
  }

  lemma {:induction false} FieldsTables(st: Fbb, fs: seq<Field>, offs: seq<nat>)
    requires |offs| == |fs| && OffsetsWithin(offs, |st.data|) && WidthsOk(fs)
    ensures AddFields(st, fs, offs).vtables == st.vtables
    decreases |fs|
  {
    if fs != [] { FieldsTables(st, fs[..|fs| - 1], offs[..|fs| - 1]); }
  }

  // ---------------------------------------------------------------------
  // The vtable's own entries

  /** The largest field that is stored, 0 if there is none. */
  predicate MaxTracked(st: Fbb) {
    if st.fields == [] then st.maxVoffset == 0
    else exists k :: 0 <= k < |st.fields| && st.fields[k].id == st.maxVoffset
  }

  lemma TrackMax(p: Fbb, id: nat)
    requires MaxTracked(p)
    ensures MaxTracked(Track(p, id))
  {
    var r := Track(p, id);
    assert r.fields[|p.fields|].id == id;
    if r.maxVoffset != id {
      var k :| 0 <= k < |p.fields| && p.fields[k].id == p.maxVoffset;
      assert r.fields[k].id == r.maxVoffset;
    }
  }

  lemma {:induction false} FieldsMax(st: Fbb, fs: seq<Field>, offs: seq<nat>)
    requires |offs| == |fs| && OffsetsWithin(offs, |st.data|) && WidthsOk(fs) && MaxTracked(st)
    ensures MaxTracked(AddFields(st, fs, offs))
    decreases |fs|
  {
    hide MaxTracked, PushElement, PushOffset, Track;
    if fs != [] {
      var n := |fs| - 1;
      FieldsMax(st, fs[..n], offs[..n]);
      var r := AddFields(st, fs[..n], offs[..n]);
      match fs[n]
      case Scalar(id, w, v, d) =>
        if v != d || r.forceDefaults {
          PushSame(r, v, w);
          SameMax(r, PushElement(r, v, w));
          TrackMax(PushElement(r, v, w), id);
        }
      case Ref(id, _) =>
        if offs[n] != 0 {
          OffsetSame(r, offs[n]);
          SameMax(r, PushOffset(r, offs[n]));
          TrackMax(PushOffset(r, offs[n]), id);
        }
    }
  }

  lemma SameMax(st: Fbb, p: Fbb)
    requires SameTables(st, p) && MaxTracked(st)
    ensures MaxTracked(p)
  {
  }

  lemma PushSame(st: Fbb, v: nat, w: nat)
    requires w >= 1
    ensures SameTables(st, PushElement(st, v, w))
  {
  }

  lemma OffsetSame(st: Fbb, off: nat)
    requires off <= |st.data|
    ensures SameTables(st, PushOffset(st, off))
  {
  }

  /** A closed table's vtable ends with the last field that is stored, the second
      entry being the size of the table's own data. */
  lemma VtableHeader(st: Fbb, start: nat)
    requires Closable(st, start) && MaxTracked(st) && |EndTable(st, start).value.0.data| <= MAX_BUFFER_SIZE
    ensures var (st', loc) := EndTable(st, start).value;
      && VTable(st'.data, |st'.data| - loc).Some?
      && var p := VTable(st'.data, |st'.data| - loc).value;
         && Rd(st'.data, p, 2) == Some(if st.fields == [] then 4 else st.maxVoffset + 2)
         && Rd(st'.data, p + 2, 2) == Some(loc - start)
  {
    hide PushElement, CloseTable, TableAt, Extends, SameVtable, EncodeSlots, SharedVtable, VtablesOk, Rd;
    BodyFacts(st);
    var body := PushElement(st, 0, 4);
    var loc := |body.data|;
    var slots := VtableSlots(st, loc, loc - start);
    VtableSlotsFacts(st, start, loc, loc - start, 4);
    ObjectSize(st, start, loc);
    var found := SharedVtable(st, body, slots);
    CloseLayout(st, body, slots, found);
    hide VtableSlots, Building, TableStarted;
    var data, o := EndTable(st, start).value.0.data, VtUse(body, slots, found);
    HeadReads(data, loc, o, slots);
    SlotsAt(data, loc, o, slots);
  }

  lemma SlotsAt(data: Buffer, loc: nat, vtUse: nat, slots: seq<nat>)
    requires TableAt(data, loc, vtUse, slots) && SlotsOk(slots) && slots[1] < TWO16
    ensures Rd(data, |data| - vtUse, 2) == Some(slots[0]) && Rd(data, |data| - vtUse + 2, 2) == Some(slots[1])
  {
    SlotReads(data, vtUse, slots, 0);
    SlotReads(data, vtUse, slots, 1);
  }

  lemma ObjectSize(st: Fbb, start: nat, loc: nat)
    requires Building(st, start) && start <= loc && FieldsFit(st.fields, loc, VtableSize(st.maxVoffset))
    ensures VtableSlots(st, loc, loc - start)[1] == loc - start
  {
    var m := VtableSize(st.maxVoffset);
    SlotsRead([m, loc - start] + seq(m / 2 - 2, _ => 0), loc, st.fields, 2);
  }

  // ---------------------------------------------------------------------
  // Nothing is wasted

  /** A scalar takes its own size and less than that of padding. */
  lemma ScalarSize(st: Fbb, v: nat, w: nat)
    requires w >= 1
    ensures |st.data| + w <= |PushElement(st, v, w).data| < |st.data| + 2 * w
  {
    PreAlignFacts(st, 0, w);
  }

  /** A string takes its bytes, the terminator, the length and up to three bytes. */
  lemma StringSize(st: Fbb, s: seq<Byte>)
    ensures |st.data| + |s| + 5 <= |CreateString(st, s).data| < |st.data| + |s| + 9
  {
    PreAlignFacts(st, |s| + 1, 4);
    StringBodyFacts(st, s);
    PushElementTight(StringBody(st, s), |s|, 4);
    hide PreAlign, PushElement, Extends, Mult;
    StringDef(st, s);
    StringBodySize(st, s);
  }

  lemma StringBodySize(st: Fbb, s: seq<Byte>)
    ensures |StringBody(st, s).data| == |PreAlign(st, |s| + 1, 4).data| + 1 + |s|
  {
  }

  /** A vector takes its elements, the length and up to three bytes. */
  lemma VectorSize(st: Fbb, offs: seq<nat>)
    requires OffsetsWithin(offs, |st.data|)
    ensures |st.data| + 4 * |offs| + 4 <= |CreateVector(st, offs).data| < |st.data| + 4 * |offs| + 8
  {
    hide PushElement, Extends, SameTables;
    PreAlignFacts(st, |offs| * 4, 4);
    MultSub(|PreAlign(st, |offs| * 4, 4).data|, |offs|);
    VectorBodyFacts(st, offs);
    hide PreAlign, Mult;
    PushOffsetsFacts(PreAlign(st, |offs| * 4, 4), offs);
    PushElementTight(VectorBody(st, offs), |offs|, 4);
  }

  /** The root offset, with the padding that the largest alignment needs. */
  lemma FinishSize(st: Fbb, root: nat)
    requires IsAlign(st.minalign) && 4 <= st.minalign && root <= |st.data|
    ensures |st.data| + 4 <= |Finish(st, root).data| < |st.data| + 4 + st.minalign
  {
    hide PreAlign, Extends, Mult, PushOffset;
    var c := Cleared(st);
    PreAlignFacts(c, 4, st.minalign);
    var a := PreAlign(c, 4, st.minalign);
    FourDivides(|a.data|, st.minalign);
    PushOffsetTight(a, root);
  }

  lemma FourDivides(n: nat, a: nat)
    requires IsAlign(a) && 4 <= a && Mult(n + 4, a)
    ensures Mult(n, 4)
  {
  }
}

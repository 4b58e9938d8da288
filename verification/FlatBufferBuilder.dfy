/** FlatBufferBuilder (flatbuffers.h) in its own form: one buffer updated in
    place, with the vtable offsets and the pending field locations stored as
    raw bytes in the buffer's scratch end. Each method is proved equal to the
    corresponding function of BuilderSpec. */
module FlatBufferBuilderImpl {
  import opened Bytes
  import opened Reader
  import opened WireValue
  import Spec = BuilderSpec
  import RT = BuilderRoundTrip
  import opened DownwardVector

  // ---------------------------------------------------------------------
  // What the scratch pad holds

  /** uoffset_t per vtable. */
  function EncOffsets(v: seq<nat>): (r: seq<Byte>)
    ensures |r| == 4 * |v|
    decreases |v|
  {
    if v == [] then [] else EncOffsets(v[..|v| - 1]) + Le(v[|v| - 1], 4)
  }

  /** struct FieldLoc { uoffset_t off; voffset_t id; }, padded to 8 bytes. */
  function EncLoc(f: Spec.FieldLoc): (r: seq<Byte>)
    ensures |r| == 8
  {
    Le(f.off, 4) + Le(f.id, 2) + [0, 0]
  }

  function EncLocs(fs: seq<Spec.FieldLoc>): (r: seq<Byte>)
    ensures |r| == 8 * |fs|
    decreases |fs|
  {
    if fs == [] then [] else EncLocs(fs[..|fs| - 1]) + EncLoc(fs[|fs| - 1])
  }

  lemma {:induction false} EncOffsetsAt(v: seq<nat>, k: nat)
    requires k < |v|
    ensures EncOffsets(v)[4 * k..4 * k + 4] == Le(v[k], 4)
    decreases |v|
  {
    hide Le;
    var n := |v| - 1;
    var a, b := EncOffsets(v[..n]), Le(v[n], 4);
    if k < n {
      EncOffsetsAt(v[..n], k);
      SliceLeft(a, b, 4 * k, 4 * k + 4);
    } else {
      SliceRight(a, b, 0, 4);
      assert b[0..4] == b;
    }
  }

  lemma {:induction false} EncLocsAt(fs: seq<Spec.FieldLoc>, k: nat)
    requires k < |fs|
    ensures EncLocs(fs)[8 * k..8 * k + 8] == EncLoc(fs[k])
    decreases |fs|
  {
    hide EncLoc;
    var n := |fs| - 1;
    var a, b := EncLocs(fs[..n]), EncLoc(fs[n]);
    if k < n {
      EncLocsAt(fs[..n], k);
      SliceLeft(a, b, 8 * k, 8 * k + 8);
    } else {
      SliceRight(a, b, 0, 8);
      assert b[0..8] == b;
    }
  }

  lemma EncLocReads(f: Spec.FieldLoc)
    requires f.off < TWO32 && f.id < TWO16
    ensures De(EncLoc(f)[0..4]) == f.off && De(EncLoc(f)[4..6]) == f.id
  {
    Widths();
    DeLe(f.off, 4);
    DeLe(f.id, 2);
    hide Le, De;
    assert EncLoc(f)[0..4] == Le(f.off, 4);
    assert EncLoc(f)[4..6] == Le(f.id, 2);
  }

  /** Reading the k-th FieldLoc out of the scratch bytes. */
  lemma LocReads(pre: seq<Byte>, fs: seq<Spec.FieldLoc>, k: nat)
    requires k < |fs| && fs[k].off < TWO32 && fs[k].id < TWO16
    ensures var s := pre + EncLocs(fs); var p := |pre| + 8 * k;
      De(s[p..p + 4]) == fs[k].off && De(s[p + 4..p + 6]) == fs[k].id
  {
    hide EncLocs, EncLoc, De;
    EncLocReads(fs[k]);
    EncLocsAt(fs, k);
    var e := EncLocs(fs);
    SliceSlice(e, 8 * k, 8 * k + 8, 0, 4);
    SliceSlice(e, 8 * k, 8 * k + 8, 4, 6);
    SliceRight(pre, e, 8 * k, 8 * k + 4);
    SliceRight(pre, e, 8 * k + 4, 8 * k + 6);
  }

  /** Reading the k-th vtable offset out of the scratch bytes. */
  lemma OffsetReads(v: seq<nat>, k: nat)
    requires k < |v| && v[k] < TWO32
    ensures De(EncOffsets(v)[4 * k..4 * k + 4]) == v[k]
  {
    EncOffsetsAt(v, k);
    Widths();
    DeLe(v[k], 4);
  }

  lemma ScratchSnocLoc(v: seq<nat>, fs: seq<Spec.FieldLoc>, fl: Spec.FieldLoc)
    ensures EncOffsets(v) + EncLocs(fs + [fl]) == (EncOffsets(v) + EncLocs(fs)) + EncLoc(fl)
  {
    hide EncOffsets, EncLoc;
    assert (fs + [fl])[..|fs|] == fs;
  }

  lemma ScratchSnocOffset(v: seq<nat>, o: nat)
    ensures EncOffsets(v + [o]) + EncLocs([]) == (EncOffsets(v) + EncLocs([])) + Le(o, 4)
  {
    hide Le;
    assert (v + [o])[..|v|] == v;
  }

  // ---------------------------------------------------------------------
  // Vtables in place

  lemma AlignPadding(n: nat, a: nat)
    requires IsAlign(a) && n < TWO64
    ensures PaddingBytes(n, a) == Padding(n, a)
  {
    assert Pow2(0) == 1 && Pow2(1) == 2 && Pow2(2) == 4 && Pow2(3) == 8;
    PaddingBytesCorrect(n, if a == 1 then 0 else if a == 2 then 1 else if a == 4 then 2 else 3);
  }

  /** Storing a 16-bit slot in place is updating the slot array. */
  lemma PatchSlot(slots: seq<nat>, d: seq<Byte>, i: nat, v: nat)
    requires i < |slots| && v < TWO16
    ensures var s := Spec.EncodeSlots(slots) + d;
      Patch(s, |s| - 2 * i, Le(v, 2)) == Spec.EncodeSlots(slots[i := v]) + d
  {
    var s := Spec.EncodeSlots(slots) + d;
    var r := Patch(s, |s| - 2 * i, Le(v, 2));
    var t := Spec.EncodeSlots(slots[i := v]) + d;
    assert Le(v, 2) == [v % 256, v / 256];
    forall k | 0 <= k < |s|
      ensures r[k] == t[k]
    {
    }
  }

  lemma ZeroSlots(n: nat)
    ensures Zeros(2 * n) == Spec.EncodeSlots(seq(n, _ => 0))
  {
  }

  /** The zeroed vtable with its two header slots stored. */
  function BaseSlots(m: nat, objectSize: nat): seq<nat>
    requires m >= 4
  {
    [m, objectSize] + seq(m / 2 - 2, _ => 0)
  }

  lemma HeaderSlots(m: nat, objectSize: nat, d: seq<Byte>)
    requires 4 <= m < TWO16 && m % 2 == 0 && objectSize < TWO16
    ensures var s := Zeros(m) + d;
      Patch(Patch(s, |s| - 2, Le(objectSize, 2)), |s|, Le(m, 2))
      == Spec.EncodeSlots(BaseSlots(m, objectSize)) + d
  {
    var z: seq<nat> := seq(m / 2, _ => 0);
    var z1: seq<nat> := z[1 := objectSize];
    ZeroSlots(m / 2);
    PatchSlot(z, d, 1, objectSize);
    PatchSlot(z1, d, 0, m);
    assert z1[0 := m] == BaseSlots(m, objectSize);
  }

  lemma SlotsStep(base: seq<nat>, loc: nat, fields: seq<Spec.FieldLoc>, k: nat, d: seq<Byte>)
    requires k < |fields| && Spec.FieldsFit(fields, loc, 2 * |base|) && loc - fields[k].off < TWO16
    ensures Spec.FieldsFit(fields[..k], loc, 2 * |base|) && Spec.FieldsFit(fields[..k + 1], loc, 2 * |base|)
    ensures var s := Spec.EncodeSlots(Spec.Slots(base, loc, fields[..k])) + d;
      && fields[k].id + 2 <= |s| && fields[k].off < loc
      && Patch(s, |s| - fields[k].id, Le(loc - fields[k].off, 2))
         == Spec.EncodeSlots(Spec.Slots(base, loc, fields[..k + 1])) + d
  {
    hide Patch, Spec.EncodeSlots, Le;
    assert fields[..k + 1][..k] == fields[..k];
    PatchSlot(Spec.Slots(base, loc, fields[..k]), d, fields[k].id / 2, loc - fields[k].off);
  }

  lemma SlotsZero(base: seq<nat>, loc: nat, fields: seq<Spec.FieldLoc>)
    ensures Spec.FieldsFit(fields[..0], loc, 2 * |base|)
    ensures Spec.Slots(base, loc, fields[..0]) == base
  {
  }

  /** Comparing sizes first and then bytes decides equality of vtables. */
  lemma CompareVtables(body: seq<Byte>, o: nat, vt: seq<Byte>)
    requires RT.VtOk(body, o) && 4 <= |vt| && De(vt[0..2]) == |vt|
    ensures Spec.SameVtable(body, o, vt)
      <==> var q := |body| - o;
           De(body[q..q + 2]) == |vt| && body[q..q + |vt|] == vt
  {
    hide De;
    var q := |body| - o;
    if Spec.SameVtable(body, o, vt) {
      assert body[q..q + |vt|] == body[q..][..|vt|];
      SliceSlice(body, q, q + |vt|, 0, 2);
    } else if De(body[q..q + 2]) == |vt| {
      assert body[q..q + |vt|] == body[q..][..|vt|];
    }
  }

  lemma DropLocs(a: seq<Byte>, b: seq<Byte>)
    ensures (a + b)[..|a + b| - |b|] == a
  {
  }

  lemma NoLocs(a: seq<Byte>)
    ensures a + EncLocs([]) == a
  {
  }

  lemma VtOkBounds(body: seq<Byte>, o: nat)
    requires RT.VtOk(body, o)
    ensures 4 <= o <= |body| && De(body[|body| - o..|body| - o + 2]) <= o
  {
  }

  lemma DataSlice(vt: seq<Byte>, body: seq<Byte>, o: nat, n: nat)
    requires n <= o <= |body|
    ensures (vt + body)[|vt + body| - o..|vt + body| - o + n] == body[|body| - o..|body| - o + n]
  {
  }

  lemma SameDecides(vt: seq<Byte>, body: seq<Byte>, o: nat)
    requires RT.VtOk(body, o) && 4 <= |vt| && De(vt[0..2]) == |vt|
    ensures var data := vt + body; var q := |data| - o;
      && 4 <= o <= |body|
      && (De(data[q..q + 2]) != |vt| ==> !Spec.SameVtable(body, o, vt))
      && (De(data[q..q + 2]) == |vt| ==>
            && |vt| <= o
            && (Spec.SameVtable(body, o, vt) <==> data[q..q + |vt|] == data[0..|vt|]))
  {
    hide De, Spec.SameVtable;
    CompareVtables(body, o, vt);
    VtOkBounds(body, o);
    DataSlice(vt, body, o, 2);
    assert (vt + body)[0..|vt|] == vt;
    if De(body[|body| - o..|body| - o + 2]) == |vt| {
      DataSlice(vt, body, o, |vt|);
    }
  }

  lemma HeadPatch(vt: seq<Byte>, body: seq<Byte>, head: seq<Byte>)
    requires |head| == 4 <= |body|
    ensures Patch(body, |body|, head) == head + body[4..]
    ensures Patch(vt + body, |body|, head) == vt + (head + body[4..])
  {
  }

  lemma LinkShared(st: Spec.Fbb, body: Spec.Fbb, slots: seq<nat>, o: nat)
    requires |body.data| >= 4
    ensures var r := Spec.CloseTable(st, body, slots, Some(o));
      && r.data == Patch(body.data, |body.data|, Le(ToU32(o - |body.data|), 4))
      && r == body.(fields := [], maxVoffset := 0, data := r.data)
  {
    hide Patch, Le;
    HeadPatch([], body.data, Le(ToU32(o - |body.data|), 4));
  }

  lemma LinkFresh(st: Spec.Fbb, body: Spec.Fbb, slots: seq<nat>)
    requires |body.data| >= 4
    ensures var r := Spec.CloseTable(st, body, slots, None);
      var data := Spec.EncodeSlots(slots) + body.data;
      && r.data == Patch(data, |body.data|, Le(ToU32(|data| - |body.data|), 4))
      && r == body.(fields := [], maxVoffset := 0, data := r.data, vtables := st.vtables + [|data|])
  {
    hide Patch, Le, Spec.EncodeSlots;
    HeadPatch(Spec.EncodeSlots(slots), body.data, Le(ToU32(|Spec.EncodeSlots(slots)|), 4));
  }

  /** The table after its head is written is the closed one. */
  lemma LinkResult(st: Spec.Fbb, body: Spec.Fbb, slots: seq<nat>, found: Option<nat>, data: seq<Byte>, vtUse: nat)
    requires 4 <= |body.data| && slots != []
    requires if found.Some? then data == body.data && vtUse == found.value
      else data == Spec.EncodeSlots(slots) + body.data && vtUse == |data|
    ensures Spec.CloseTable(st, body, slots, found) ==
      body.(fields := [], maxVoffset := 0, data := Patch(data, |body.data|, Le(ToU32(vtUse - |body.data|), 4)),
            vtables := if found.Some? then body.vtables else st.vtables + [vtUse])
  {
    hide Spec.EncodeSlots, Patch, Le, Spec.CloseTable, ToU32;
    if found.Some? { LinkShared(st, body, slots, found.value); } else { LinkFresh(st, body, slots); }
  }

  /** What EndTable relies on after storing the table head. */
  lemma TableHeadFacts(st: Spec.Fbb, start: nat)
    requires RT.Building(st, start) && Spec.TableStarted(st, start) && Spec.EndTable(st, start).Some?
    ensures var body := Spec.PushElement(st, 0, 4); var loc := |body.data|;
      && RT.SameTables(st, body) && body.minalign == Max(st.minalign, 4)
      && body.forceDefaults == st.forceDefaults && body.dedup == st.dedup
      && |st.data| + 4 <= loc && loc - start < TWO16
      && (forall k :: 0 <= k < |st.fields| ==> loc - st.fields[k].off < TWO16)
      && (forall k :: 0 <= k < |st.vtables| ==> RT.VtOk(body.data, st.vtables[k]) && st.vtables[k] < loc)
  {
    hide Spec.VtableSlots, Spec.CloseTable, Spec.SharedVtable, RT.VtOk;
    RT.BodyFacts(st);
    RT.PushMeta(st, 0, 4, 0);
    var body := Spec.PushElement(st, 0, 4);
    RT.VtablesGrow(st, body);
    OldVtables(st);
    hide Spec.PushElement;
  }

  lemma OldVtables(st: Spec.Fbb)
    requires RT.VtablesOk(st)
    ensures forall k :: 0 <= k < |st.vtables| ==> st.vtables[k] <= |st.data|
  {
  }

  lemma NewVtableFacts(st: Spec.Fbb, body: Spec.Fbb, start: nat)
    requires RT.Building(st, start) && RT.SameTables(st, body)
    requires |st.data| < |body.data| && start < |body.data| && |body.data| - start < TWO16
    requires Spec.FieldsFit(st.fields, |body.data|, Spec.VtableSize(st.maxVoffset))
    ensures var loc := |body.data|;
      var slots := Spec.VtableSlots(st, loc, loc - start);
         && Spec.VtableSlots(body, loc, loc - start) == slots
         && De(Spec.EncodeSlots(slots)[0..2]) == 2 * |slots|
  {
    hide Spec.EncodeSlots, Spec.Slots, De;
    RT.VtableSlotsFacts(st, start, |body.data|, |body.data| - start, 4);
    RT.EncodeRead(Spec.VtableSlots(st, |body.data|, |body.data| - start), 0);
  }

  lemma EndTableDef(st: Spec.Fbb, start: nat)
    requires Spec.TableStarted(st, start) && Spec.EndTable(st, start).Some?
    ensures var body := Spec.PushElement(st, 0, 4); var loc := |body.data|;
      && start <= loc
      && var slots := Spec.VtableSlots(st, loc, loc - start);
         Spec.EndTable(st, start)
         == Some((Spec.CloseTable(st, body, slots, Spec.SharedVtable(st, body, slots)), loc))
  {
  }

  lemma StringSteps(st: Spec.Fbb, s: seq<Byte>)
    requires Fits(Spec.CreateString(st, s))
    ensures var a := Spec.PreAlign(st, |s| + 1, 4); var b := Spec.PushBytes(a, Zeros(1));
      && |s| + 1 <= MAX_BUFFER_SIZE && Fits(a) && Fits(b) && Fits(Spec.PushBytes(b, s))
      && Spec.CreateString(st, s) == Spec.PushElement(Spec.PushBytes(b, s), |s|, 4)
  {
  }

  lemma PreAlignTwice(st: Spec.Fbb, len: nat)
    ensures Spec.PreAlign(Spec.PreAlign(st, len, 4), len, 4) == Spec.PreAlign(st, len, 4)
  {
    RT.PreAlignFacts(st, len, 4);
    var a := Spec.PreAlign(st, len, 4);
    hide Spec.PreAlign;
    PreAlignNone(a, len);
  }

  lemma PreAlignNone(a: Spec.Fbb, len: nat)
    requires Mult(|a.data| + len, 4) && 4 <= a.minalign
    ensures Spec.PreAlign(a, len, 4) == a
  {
    PaddingNone(|a.data| + len);
    hide Padding;
    assert Zeros(0) + a.data == a.data;
  }

  lemma PaddingNone(n: nat)
    requires Mult(n, 4)
    ensures Padding(n, 4) == 0
  {
    DivMod(n, 4);
    ModUnique(0 - n, 4, -(n / 4), 0);
  }

  lemma {:induction false} PushOffsetsMono(a: Spec.Fbb, offs: seq<nat>, i: nat)
    requires Spec.OffsetsWithin(offs, |a.data|) && i <= |offs|
    ensures Spec.OffsetsWithin(offs[i..], |a.data|)
    ensures |Spec.PushOffsets(a, offs[i..]).data| <= |Spec.PushOffsets(a, offs).data|
    decreases i
  {
    if i == 0 {
      assert offs[0..] == offs;
    } else {
      PushOffsetsMono(a, offs[1..], i - 1);
      assert offs[1..][i - 1..] == offs[i..];
    }
  }

  /** Every intermediate size of CreateVector is bounded by the final one. */
  lemma VectorSteps(st: Spec.Fbb, offs: seq<nat>, i: nat)
    requires Spec.OffsetsWithin(offs, |st.data|) && Fits(Spec.CreateVector(st, offs)) && i <= |offs|
    ensures var a := Spec.PreAlign(st, |offs| * 4, 4);
      && Spec.PreAlign(a, |offs| * 4, 4) == a && Fits(a) && |offs| * 4 <= MAX_BUFFER_SIZE
      && Spec.OffsetsWithin(offs[i..], |a.data|) && |a.data| <= |Spec.PushOffsets(a, offs[i..]).data|
      && Fits(Spec.PushOffsets(a, offs[i..]))
      && (i < |offs| ==>
            && offs[i] <= |a.data| && Spec.OffsetsWithin(offs[i + 1..], |a.data|)
            && Spec.PushOffsets(a, offs[i..]) == Spec.PushOffset(Spec.PushOffsets(a, offs[i + 1..]), offs[i]))
      && Fits(Spec.PushElement(Spec.PushOffsets(a, offs), |offs|, 4))
  {
    PreAlignTwice(st, |offs| * 4);
    RT.PreAlignFacts(st, |offs| * 4, 4);
    hide Spec.PreAlign, Spec.PushElement, Spec.PushOffset;
    var a := Spec.PreAlign(st, |offs| * 4, 4);
    PushOffsetsMono(a, offs, i);
    OffsetsSize(a, offs);
    OffsetsSize(a, offs[i..]);
    PushSize(Spec.PushOffsets(a, offs), |offs|);
    if i < |offs| {
      assert offs[i..][1..] == offs[i + 1..];
    }
  }

  lemma PushSize(st: Spec.Fbb, v: nat)
    ensures |Spec.PushElement(st, v, 4).data| >= |st.data| + 4
  {
  }

  lemma {:induction false} OffsetsSize(a: Spec.Fbb, offs: seq<nat>)
    requires Spec.OffsetsWithin(offs, |a.data|)
    ensures |Spec.PushOffsets(a, offs).data| >= |a.data| + 4 * |offs|
    decreases |offs|
  {
    if offs != [] {
      OffsetsSize(a, offs[1..]);
    }
  }

  lemma FinishTables(st: Spec.Fbb, root: nat)
    requires root <= |st.data| && st.minalign >= 1
    ensures Spec.Finish(st, root).vtables == Spec.Cleared(st).vtables && Spec.Finish(st, root).fields == Spec.Cleared(st).fields
  {
  }

  lemma FinishSteps(st: Spec.Fbb, root: nat)
    requires IsAlign(st.minalign) && root <= |st.data| && Fits(Spec.Finish(st, root))
    ensures var a := Spec.PreAlign(Spec.Cleared(st), 4, st.minalign);
      Fits(a) && root <= |a.data| && Spec.Finish(st, root) == Spec.PushOffset(a, root)
  {
    var c := Spec.Cleared(st);
    var a := Spec.PreAlign(c, 4, st.minalign);
    RT.PreAlignFacts(c, 4, st.minalign);
    hide Spec.PreAlign, Spec.PushOffset;
    RT.PushOffsetExtends(a, root);
  }

  lemma NoScratch()
    ensures EncOffsets([]) + EncLocs([]) == [] && OffsetsFit([]) && LocsFit([])
  {
  }

  // ---------------------------------------------------------------------
  // The builder

  predicate OffsetsFit(v: seq<nat>) { forall k :: 0 <= k < |v| ==> v[k] < TWO32 }

  predicate LocsFit(fs: seq<Spec.FieldLoc>) {
    forall k :: 0 <= k < |fs| ==> fs[k].off < TWO32 && fs[k].id < TWO16
  }

  /** The 2 GiB limit of the format. */
  predicate Fits(st: Spec.Fbb) { |st.data| <= MAX_BUFFER_SIZE }

  class FlatBufferBuilder {
    const buf: VectorDownward
    var numFieldLoc: nat
    var maxVoffset: nat
    var nested: bool
    var finished: bool
    var minalign: nat
    const forceDefaults: bool
    const dedup: bool
    ghost var vtables: seq<nat>          // decoded view of the scratch pad
    ghost var fields: seq<Spec.FieldLoc>

    ghost predicate Valid()
      reads this, buf, buf.buf
    {
      && buf.Valid() && |buf.Data()| <= MAX_BUFFER_SIZE
      && IsAlign(minalign)
      && numFieldLoc == |fields| && OffsetsFit(vtables) && LocsFit(fields)
      && buf.Scratch() == EncOffsets(vtables) + EncLocs(fields)
    }

    ghost function View(): Spec.Fbb
      requires Valid()
      reads this, buf, buf.buf
    {
      Spec.Fbb(buf.Data(), vtables, fields, maxVoffset, minalign, forceDefaults, dedup)
    }

    constructor (initialSize: nat, forceDefaults: bool, dedup: bool)
      ensures Valid() && fresh(buf) && fresh(buf.buf) && !nested && !finished
      ensures View() == Spec.Empty(forceDefaults, dedup)
    {
      assert Pow2(3) == 8;
      buf := new VectorDownward(initialSize, 8, 3);
      numFieldLoc, maxVoffset, nested, finished, minalign := 0, 0, false, false, 1;
      this.forceDefaults, this.dedup := forceDefaults, dedup;
      vtables, fields := [], [];
    }

    method PreAlign(len: nat, align: nat)
      requires Valid() && IsAlign(align) && Fits(Spec.PreAlign(View(), len, align))
      requires len <= MAX_BUFFER_SIZE
      modifies this`minalign, buf, buf.buf
      ensures Valid() && (buf.buf == old(buf.buf) || fresh(buf.buf))
      ensures View() == Spec.PreAlign(old(View()), len, align)
    {
      hide EncLocs, EncOffsets, OffsetsFit, LocsFit, PaddingBytes, Padding, Zeros;
      if align > minalign {
        minalign := align;
      }
      AlignPadding(buf.Size() + len, align);
      buf.Fill(PaddingBytes(buf.Size() + len, align));
    }

    method PushBytes(bytes: seq<Byte>)
      requires Valid() && Fits(Spec.PushBytes(View(), bytes))
      modifies buf, buf.buf
      ensures Valid() && (buf.buf == old(buf.buf) || fresh(buf.buf))
      ensures View() == Spec.PushBytes(old(View()), bytes)
    {
      buf.Push(bytes);
    }

    method PushElement(v: nat, w: nat) returns (size: nat)
      requires Valid() && IsAlign(w) && Fits(Spec.PushElement(View(), v, w))
      modifies this`minalign, buf, buf.buf
      ensures Valid() && (buf.buf == old(buf.buf) || fresh(buf.buf))
      ensures View() == Spec.PushElement(old(View()), v, w) && size == |View().data|
    {
      PreAlign(0, w);
      PushBytes(Le(v, w));
      size := buf.Size();
    }

    /** ReferTo: aligns, then turns an end-offset into a relative one. */
    method ReferTo(off: nat) returns (rel: nat)
      requires Valid() && off <= |View().data| && Fits(Spec.AlignTo(View(), 4))
      modifies this`minalign, buf, buf.buf
      ensures Valid() && (buf.buf == old(buf.buf) || fresh(buf.buf))
      ensures View() == Spec.AlignTo(old(View()), 4) && rel == Spec.Relative(old(View()), off)
    {
      PreAlign(0, 4);
      rel := buf.Size() - off + 4;
    }

    method PushOffset(off: nat) returns (size: nat)
      requires Valid() && off <= |View().data| && Fits(Spec.PushOffset(View(), off))
      modifies this`minalign, buf, buf.buf
      ensures Valid() && (buf.buf == old(buf.buf) || fresh(buf.buf))
      ensures View() == Spec.PushOffset(old(View()), off) && size == |View().data|
    {
      var rel := ReferTo(off);
      size := PushElement(rel, 4);
    }

    method TrackField(id: nat, off: nat)
      requires Valid() && id < TWO16 && off == |View().data|
      modifies this`numFieldLoc, this`maxVoffset, this`fields, buf, buf.buf
      ensures Valid() && (buf.buf == old(buf.buf) || fresh(buf.buf))
      ensures View() == Spec.Track(old(View()), id)
    {
      hide EncLocs, EncLoc, EncOffsets;
      var fl := Spec.FieldLoc(off, id);
      ScratchSnocLoc(vtables, fields, fl);
      buf.ScratchPush(EncLoc(fl));
      numFieldLoc := numFieldLoc + 1;
      maxVoffset := Max(maxVoffset, id);
      fields := fields + [fl];
    }

    method AddElement(id: nat, v: nat, w: nat, def: nat)
      requires Valid() && IsAlign(w) && id < TWO16 && Fits(Spec.AddScalar(View(), id, v, w, def))
      modifies this, buf, buf.buf
      ensures Valid() && (buf.buf == old(buf.buf) || fresh(buf.buf))
      ensures View() == Spec.AddScalar(old(View()), id, v, w, def)
      ensures nested == old(nested) && finished == old(finished)
    {
      hide EncLocs, EncOffsets, OffsetsFit, LocsFit, Spec.PushElement;
      if v == def && !forceDefaults {
        return;
      }
      var off := PushElement(v, w);
      TrackField(id, off);
    }

    /** AddOffset: the relative offset is never 0, so it is never skipped. */
    method AddOffset(id: nat, off: nat)
      requires Valid() && id < TWO16 && off <= |View().data|
      requires Fits(Spec.AddOffset(View(), id, off))
      modifies this, buf, buf.buf
      ensures Valid() && (buf.buf == old(buf.buf) || fresh(buf.buf))
      ensures View() == Spec.AddOffset(old(View()), id, off)
      ensures nested == old(nested) && finished == old(finished)
    {
      hide EncLocs, EncOffsets, OffsetsFit, LocsFit, Spec.PushOffset;
      if off == 0 {
        return;
      }
      var size := PushOffset(off);
      TrackField(id, size);
    }

    method StartTable() returns (start: nat)
      requires Valid() && !nested && numFieldLoc == 0
      modifies this`nested
      ensures Valid() && View() == old(View()) && nested && start == |View().data|
    {
      nested := true;
      start := buf.Size();
    }

    /** The zeroed vtable with its size and the object's stored. */
    method StartVtable(m: nat, objectSize: nat)
      requires Valid() && 4 <= m < TWO16 && m % 2 == 0 && objectSize < TWO16
      requires |buf.Data()| + m <= MAX_BUFFER_SIZE
      modifies buf, buf.buf
      ensures Valid() && (buf.buf == old(buf.buf) || fresh(buf.buf))
      ensures buf.Data() == Spec.EncodeSlots(BaseSlots(m, objectSize)) + old(buf.Data())
    {
      hide EncLocs, EncOffsets, Patch, Le, Zeros, Spec.EncodeSlots;
      HeaderSlots(m, objectSize, buf.Data());
      buf.Fill(m);
      var size := buf.Size();
      buf.WriteAt(size - 2, Le(objectSize, 2));
      buf.WriteAt(size, Le(m, 2));
    }

    /** The k-th FieldLoc on top of the scratch pad, read from its bytes. */
    method ReadLoc(k: nat) returns (off: nat, id: nat)
      requires Valid() && k < numFieldLoc
      ensures off == fields[k].off && id == fields[k].id
    {
      hide EncLocs, EncOffsets, De;
      var p := buf.scratch - 8 * numFieldLoc + 8 * k;
      LocReads(EncOffsets(vtables), fields, k);
      assert buf.buf[p..p + 4] == buf.Scratch()[p..p + 4];
      assert buf.buf[p + 4..p + 6] == buf.Scratch()[p + 4..p + 6];
      off, id := De(buf.buf[p..p + 4]), De(buf.buf[p + 4..p + 6]);
    }

    /** The k-th vtable offset at the bottom of the scratch pad. */
    method ReadVtableOffset(k: nat) returns (o: nat)
      requires Valid() && k < |vtables|
      ensures o == vtables[k]
    {
      hide EncLocs, EncOffsets, De;
      OffsetReads(vtables, k);
      SliceLeft(EncOffsets(vtables), EncLocs(fields), 4 * k, 4 * k + 4);
      assert buf.buf[4 * k..4 * k + 4] == buf.Scratch()[4 * k..4 * k + 4];
      o := De(buf.buf[4 * k..4 * k + 4]);
    }

    /** The loop over the recorded fields: each one's slot is stored in place. */
    method FillSlots(loc: nat, ghost base: seq<nat>, ghost d: seq<Byte>)
      requires Valid() && Spec.FieldsFit(fields, loc, 2 * |base|)
      requires buf.Data() == Spec.EncodeSlots(base) + d
      requires forall k :: 0 <= k < |fields| ==> loc - fields[k].off < TWO16
      modifies buf.buf
      ensures Valid() && buf.Data() == Spec.EncodeSlots(Spec.Slots(base, loc, fields)) + d
    {
      hide EncLocs, EncOffsets, Patch, Le, Spec.EncodeSlots, Spec.FieldsFit;
      var size := buf.Size();
      var k := 0;
      SlotsZero(base, loc, fields);
      while k < numFieldLoc
        invariant 0 <= k <= numFieldLoc && Valid()
        invariant Spec.FieldsFit(fields[..k], loc, 2 * |base|)
        invariant buf.Data() == Spec.EncodeSlots(Spec.Slots(base, loc, fields[..k])) + d
      {
        var off, id := ReadLoc(k);
        SlotsStep(base, loc, fields, k, d);
        buf.WriteAt(size - id, Le(loc - off, 2));
        k := k + 1;
      }
      assert fields[..k] == fields;
    }

    /** From the table head to the complete new vtable on top of the data; the
        field locations are gone from the scratch pad. */
    method WriteVtable(start: nat, loc: nat)
      requires Valid() && loc == |View().data| && start < loc && loc - start < TWO16
      requires Spec.MaxOk(maxVoffset) && Spec.FieldsFit(fields, loc, Spec.VtableSize(maxVoffset))
      requires forall k :: 0 <= k < |fields| ==> loc - fields[k].off < TWO16
      requires loc + Spec.VtableSize(maxVoffset) <= MAX_BUFFER_SIZE
      modifies this`numFieldLoc, this`maxVoffset, this`fields, buf, buf.buf
      ensures Valid() && (buf.buf == old(buf.buf) || fresh(buf.buf))
      ensures fields == [] && maxVoffset == 0
      ensures buf.Data()
           == Spec.EncodeSlots(Spec.VtableSlots(old(View()), loc, loc - start)) + old(buf.Data())
    {
      hide EncLocs, EncOffsets, Spec.EncodeSlots, Spec.Slots, Spec.FieldsFit;
      ghost var d := buf.Data();
      var m := Max(maxVoffset + 2, 4);
      StartVtable(m, loc - start);
      FillSlots(loc, BaseSlots(m, loc - start), d);
      DropLocs(EncOffsets(vtables), EncLocs(fields));
      buf.ScratchPop(8 * numFieldLoc);
      numFieldLoc, maxVoffset := 0, 0;
      fields := [];
      NoLocs(EncOffsets(vtables));
    }

    /** The loop over the earlier vtables; vt, of size m, is on top of body. */
    method FindShared(m: nat, ghost vt: seq<Byte>, ghost body: seq<Byte>)
      returns (found: Option<nat>)
      requires Valid() && fields == [] && buf.Data() == vt + body
      requires 4 <= m == |vt| && De(vt[0..2]) == m
      requires forall k :: 0 <= k < |vtables| ==> RT.VtOk(body, vtables[k])
      ensures found == Spec.FindVtable(body, vtables, vt)
    {
      hide EncLocs, EncOffsets, De, Spec.SameVtable;
      NoLocs(EncOffsets(vtables));
      var count := buf.scratch / 4;
      assert count == |vtables|;
      var k := 0;
      while k < count
        invariant 0 <= k <= count
        invariant Spec.FindVtable(body, vtables, vt) == Spec.FindVtable(body, vtables[k..], vt)
      {
        var o := ReadVtableOffset(k);
        var same := IsSame(m, o, vt, body);
        assert vtables[k..][1..] == vtables[k + 1..];
        if same {
          return Some(o);
        }
        k := k + 1;
      }
      return None;
    }

    /** vt1_size == vt2_size, then memcmp. */
    method IsSame(m: nat, o: nat, ghost vt: seq<Byte>, ghost body: seq<Byte>) returns (same: bool)
      requires Valid() && buf.Data() == vt + body
      requires 4 <= m == |vt| && De(vt[0..2]) == m && RT.VtOk(body, o)
      ensures same == Spec.SameVtable(body, o, vt)
    {
      hide EncLocs, EncOffsets, OffsetsFit, LocsFit, De, Spec.SameVtable, RT.VtOk;
      SameDecides(vt, body, o);
      var size := SizeAt(o);
      if size != m {
        return false;
      }
      same := SameBytes(o, m);
    }

    /** ReadScalar<voffset_t>(vt2). */
    method SizeAt(o: nat) returns (size: nat)
      requires buf.Valid() && 2 <= o <= |buf.Data()|
      ensures size == De(buf.Data()[|buf.Data()| - o..|buf.Data()| - o + 2])
    {
      hide De;
      size := De(buf.Peek(o, 2));
    }

    /** memcmp(vt2, vt1, m). */
    method SameBytes(o: nat, m: nat) returns (same: bool)
      requires buf.Valid() && m <= o <= |buf.Data()|
      ensures same == (buf.Data()[|buf.Data()| - o..|buf.Data()| - o + m] == buf.Data()[0..m])
    {
      same := buf.Peek(o, m) == buf.Peek(buf.Size(), m);
    }

    /** Keep the end-offset of a new vtable in the scratch pad. */
    method Remember(o: nat)
      requires Valid() && fields == [] && o < TWO32
      modifies this`vtables, buf, buf.buf
      ensures Valid() && (buf.buf == old(buf.buf) || fresh(buf.buf))
      ensures buf.Data() == old(buf.Data()) && vtables == old(vtables) + [o]
    {
      hide EncLocs, EncOffsets, LocsFit, Le;
      ScratchSnocOffset(vtables, o);
      buf.ScratchPush(Le(o, 4));
      vtables := vtables + [o];
    }

    /** The table head now points at vtUse; the new vtable, if kept, is
        remembered in the scratch pad. */
    method LinkVtable(loc: nat, size: nat, found: Option<nat>, ghost st: Spec.Fbb,
                      ghost body: Spec.Fbb, ghost slots: seq<nat>)
      requires Valid() && fields == [] && maxVoffset == 0 && vtables == st.vtables == body.vtables
      requires buf.Data() == Spec.EncodeSlots(slots) + body.data && size == |buf.Data()|
      requires 4 <= loc == |body.data| && minalign == body.minalign
      requires body.forceDefaults == forceDefaults && body.dedup == dedup
      requires found.Some? ==> found.value < loc
      requires slots != []
      modifies this`vtables, buf, buf.buf
      ensures Valid() && (buf.buf == old(buf.buf) || fresh(buf.buf))
      ensures View() == Spec.CloseTable(st, body, slots, found)
    {
      hide EncLocs, EncOffsets, LocsFit, OffsetsFit, Spec.EncodeSlots, Patch, Le, Spec.CloseTable, ToU32;
      var vtUse := size;
      if found.Some? {
        vtUse := found.value;
        buf.Pop(size - loc);
        assert buf.Data() == body.data;
      }
      if vtUse == buf.Size() {
        Remember(vtUse);
      }
      ghost var data := buf.Data();
      WriteHead(loc, vtUse);
      LinkResult(st, body, slots, found, data, vtUse);
    }

    /** The relative place of the vtable, at the head of the table. */
    method WriteHead(loc: nat, vtUse: nat)
      requires Valid() && 4 <= loc <= |buf.Data()|
      modifies buf.buf
      ensures Valid()
      ensures View() == old(View()).(data := Patch(old(buf.Data()), loc, Le(ToU32(vtUse - loc), 4)))
    {
      hide EncLocs, EncOffsets, LocsFit, OffsetsFit, Patch, Le, ToU32;
      buf.WriteAt(loc, Le(ToU32(vtUse - loc), 4));
    }

    /** EndTable after the table head has been stored. */
    method CloseTable(start: nat, loc: nat, ghost st: Spec.Fbb)
      requires Valid() && RT.Building(st, start) && Spec.TableStarted(st, start)
      requires Spec.EndTable(st, start).Some?
      requires View() == Spec.PushElement(st, 0, 4) && loc == |View().data|
      requires loc + Spec.VtableSize(maxVoffset) <= MAX_BUFFER_SIZE
      modifies this`numFieldLoc, this`maxVoffset, this`fields, this`vtables, buf, buf.buf
      ensures Valid() && (buf.buf == old(buf.buf) || fresh(buf.buf))
      ensures View() == Spec.EndTable(st, start).value.0
    {
      hide EncLocs, EncOffsets, OffsetsFit, LocsFit, De, RT.Building, RT.VtOk, Spec.EncodeSlots, Spec.Slots,
        Spec.PushElement, Spec.VtableSlots, Spec.FindVtable, Spec.CloseTable, Spec.EndTable, Spec.FieldsFit;
      TableHeadFacts(st, start);
      EndTableDef(st, start);
      ghost var body := View();
      NewVtableFacts(st, body, start);
      WriteVtable(start, loc);
      ghost var slots := Spec.VtableSlots(st, loc, loc - start);
      var size := buf.Size();
      var found := None;
      if dedup {
        found := FindShared(size - loc, Spec.EncodeSlots(slots), body.data);
      }
      assert found == Spec.SharedVtable(st, body, slots);
      LinkVtable(loc, size, found, st, body, slots);
    }

    method EndTable(start: nat) returns (loc: nat)
      requires Valid() && nested && RT.Building(View(), start)
      requires Spec.TableStarted(View(), start) && Spec.EndTable(View(), start).Some?
      requires |Spec.PushElement(View(), 0, 4).data| + Spec.VtableSize(maxVoffset) <= MAX_BUFFER_SIZE
      modifies this, buf, buf.buf
      ensures Valid() && (buf.buf == old(buf.buf) || fresh(buf.buf))
      ensures View() == Spec.EndTable(old(View()), start).value.0
      ensures loc == Spec.EndTable(old(View()), start).value.1
      ensures !nested && finished == old(finished)
    {
      hide EncLocs, EncOffsets, OffsetsFit, LocsFit, RT.Building, Spec.EndTable, Spec.PushElement,
        Spec.TableStarted, Spec.VtableSize;
      ghost var st := View();
      EndTableDef(st, start);
      loc := PushElement(0, 4);
      CloseTable(start, loc, st);
      nested := false;
    }

    method CreateString(s: seq<Byte>) returns (loc: nat)
      requires Valid() && !nested && numFieldLoc == 0 && Fits(Spec.CreateString(View(), s))
      modifies this`minalign, buf, buf.buf
      ensures Valid() && (buf.buf == old(buf.buf) || fresh(buf.buf))
      ensures View() == Spec.CreateString(old(View()), s) && loc == |View().data|
    {
      StringSteps(View(), s);
      hide EncLocs, EncOffsets, OffsetsFit, LocsFit, Spec.PreAlign, Zeros, Le, Spec.PushElement;
      PreAlign(|s| + 1, 4);
      PushBytes(Zeros(1));
      PushBytes(s);
      loc := PushElement(|s|, 4);
    }

    /** The elements of a vector, pushed from the last to the first. */
    method PushAll(offs: seq<nat>, ghost st: Spec.Fbb)
      requires Valid() && Spec.OffsetsWithin(offs, |st.data|) && Fits(Spec.CreateVector(st, offs))
      requires View() == Spec.PreAlign(st, |offs| * 4, 4)
      modifies this`minalign, buf, buf.buf
      ensures Valid() && (buf.buf == old(buf.buf) || fresh(buf.buf))
      ensures Spec.OffsetsWithin(offs, |old(View()).data|)
      ensures View() == Spec.PushOffsets(old(View()), offs)
    {
      hide EncLocs, EncOffsets, OffsetsFit, LocsFit, Spec.PreAlign, Spec.PushElement, Spec.PushOffset,
        Spec.CreateVector;
      ghost var a := View();
      var i := |offs|;
      VectorSteps(st, offs, i);
      while i > 0
        invariant 0 <= i <= |offs| && Valid()
        invariant buf.buf == old(buf.buf) || fresh(buf.buf)
        invariant Spec.OffsetsWithin(offs[i..], |a.data|)
        invariant View() == Spec.PushOffsets(a, offs[i..])
      {
        i := i - 1;
        VectorSteps(st, offs, i);
        var size := PushOffset(offs[i]);
      }
      assert offs[0..] == offs;
    }

    method CreateVector(offs: seq<nat>) returns (loc: nat)
      requires Valid() && !nested && numFieldLoc == 0
      requires Spec.OffsetsWithin(offs, |View().data|) && Fits(Spec.CreateVector(View(), offs))
      modifies this, buf, buf.buf
      ensures Valid() && (buf.buf == old(buf.buf) || fresh(buf.buf))
      ensures View() == Spec.CreateVector(old(View()), offs) && loc == |View().data|
      ensures !nested && finished == old(finished)
    {
      hide EncLocs, EncOffsets, OffsetsFit, LocsFit, Spec.PreAlign, Spec.PushElement, Spec.PushOffsets;
      ghost var st := View();
      VectorSteps(st, offs, 0);
      PreAlign(|offs| * 4, 4);
      PreAlign(|offs| * 4, 4);
      PushAll(offs, st);
      loc := PushElement(|offs|, 4);
    }

    /** buf_.clear_scratch(), between objects. */
    method ClearScratch()
      requires Valid() && numFieldLoc == 0
      modifies this`vtables, this`fields, buf
      ensures Valid() && buf.buf == old(buf.buf) && minalign == old(minalign)
      ensures View() == Spec.Cleared(old(View())) && vtables == [] && fields == []
    {
      buf.ClearScratch();
      vtables, fields := [], [];
      NoScratch();
    }

    /** Finish, without file identifier or size prefix. */
    method Finish(root: nat)
      requires Valid() && !nested && numFieldLoc == 0 && root <= |View().data|
      requires Fits(Spec.Finish(View(), root))
      modifies this`minalign, this`finished, this`vtables, this`fields, buf, buf.buf
      ensures Valid() && (buf.buf == old(buf.buf) || fresh(buf.buf)) && finished
      ensures View() == Spec.Finish(old(View()), root) && View().vtables == [] && View().fields == []
    {
      hide EncLocs, EncOffsets, OffsetsFit, LocsFit, Spec.PreAlign, Spec.PushOffset, Spec.Finish, Spec.Cleared;
      ghost var st := View();
      FinishSteps(st, root);
      FinishTables(st, root);
      ClearScratch();
      PreAlign(4, minalign);
      var size := PushOffset(root);
      finished := true;
    }
  }
}

/** FlatBufferBuilder (flatbuffers.h) as functions on values. `data` is the
    downward stack, newest byte first; an object is named by its end-offset,
    the distance from its first byte to the end of the buffer. */
module BuilderSpec {
  import opened Bytes
  import opened Reader
  import opened WireValue

  /** Where a field of the table under construction was stored. */
  datatype FieldLoc = FieldLoc(off: nat, id: nat)

  datatype Fbb = Fbb(
    data: Buffer,
    vtables: seq<nat>,        // end-offsets of the vtables written so far
    fields: seq<FieldLoc>,    // fields of the table under construction
    maxVoffset: nat,
    minalign: nat,
    forceDefaults: bool,
    dedup: bool)

  function Empty(forceDefaults: bool, dedup: bool): Fbb {
    Fbb([], [], [], 0, 1, forceDefaults, dedup)
  }

  // ---------------------------------------------------------------------
  // Scalars and offsets

  function PushBytes(st: Fbb, bytes: seq<Byte>): Fbb {
    st.(data := bytes + st.data)
  }

  /** PreAlign: after len more bytes the size will be a multiple of align. */
  function PreAlign(st: Fbb, len: nat, align: nat): Fbb
    requires align >= 1
  {
    PushBytes(st, Zeros(Padding(|st.data| + len, align))).(minalign := Max(st.minalign, align))
  }

  function AlignTo(st: Fbb, align: nat): Fbb
    requires align >= 1
  {
    PreAlign(st, 0, align)
  }

  function PushElement(st: Fbb, v: nat, w: nat): Fbb
    requires w >= 1
  {
    PushBytes(AlignTo(st, w), Le(v, w))
  }

  /** ReferTo: the distance from where the offset will be stored to its target. */
  function Relative(st: Fbb, off: nat): (r: nat)
    requires off <= |st.data|
  {
    |AlignTo(st, 4).data| - off + 4
  }

  function PushOffset(st: Fbb, off: nat): Fbb
    requires off <= |st.data|
  {
    PushElement(AlignTo(st, 4), Relative(st, off), 4)
  }

  // ---------------------------------------------------------------------
  // Tables

  function Track(st: Fbb, id: nat): Fbb {
    st.(fields := st.fields + [FieldLoc(|st.data|, id)], maxVoffset := Max(st.maxVoffset, id))
  }

  /** AddElement: a value equal to the default is not stored. */
  function AddScalar(st: Fbb, id: nat, v: nat, w: nat, def: nat): Fbb
    requires w >= 1
  {
    if v == def && !st.forceDefaults then st else Track(PushElement(st, v, w), id)
  }

  /** AddOffset: a null offset is not stored. */
  function AddOffset(st: Fbb, id: nat, off: nat): Fbb
    requires off <= |st.data|
  {
    if off == 0 then st else Track(PushOffset(st, off), id)
  }

  predicate FieldsFit(fields: seq<FieldLoc>, loc: nat, m: nat) {
    forall k :: 0 <= k < |fields| ==>
      IsFieldId(fields[k].id) && fields[k].id + 2 <= m && fields[k].off < loc
  }

  /** The loop that stores each field's distance from the table start. */
  function Slots(base: seq<nat>, loc: nat, fields: seq<FieldLoc>): (r: seq<nat>)
    requires FieldsFit(fields, loc, 2 * |base|)
    ensures |r| == |base|
    decreases |fields|
  {
    if fields == [] then base else
    var n := |fields| - 1;
    Slots(base, loc, fields[..n])[fields[n].id / 2 := loc - fields[n].off]
  }

  /** A vtable is an array of little-endian voffset_t. */
  function EncodeSlots(slots: seq<nat>): (r: seq<Byte>)
    ensures |r| == 2 * |slots|
  {
    seq(2 * |slots|, k requires 0 <= k < 2 * |slots| =>
      if k % 2 == 0 then slots[k / 2] % 256 else slots[k / 2] / 256 % 256)
  }

  predicate MaxOk(maxVoffset: nat) { maxVoffset == 0 || IsFieldId(maxVoffset) }

  function VtableSize(maxVoffset: nat): (m: nat)
    ensures MaxOk(maxVoffset) ==> 4 <= m <= 0xFFFE && m % 2 == 0
  {
    Max(maxVoffset + 2, 4)
  }

  /** The vtable of the table at loc: its own size, the object's, the slots. */
  function VtableSlots(st: Fbb, loc: nat, objectSize: nat): (s: seq<nat>)
    requires MaxOk(st.maxVoffset) && FieldsFit(st.fields, loc, VtableSize(st.maxVoffset))
    ensures 2 * |s| == VtableSize(st.maxVoffset)
  {
    var m := VtableSize(st.maxVoffset);
    Slots([m, objectSize] + seq(m / 2 - 2, _ => 0), loc, st.fields)
  }

  /** Is the vtable at end-offset o byte for byte vt? */
  predicate SameVtable(data: Buffer, o: nat, vt: seq<Byte>) {
    |vt| <= o <= |data| && data[|data| - o..][..|vt|] == vt
  }

  /** The first earlier vtable equal to vt, if any. */
  function FindVtable(data: Buffer, vtables: seq<nat>, vt: seq<Byte>): (r: Option<nat>)
    ensures r.Some? ==> r.value in vtables && SameVtable(data, r.value, vt)
    ensures r.None? ==> forall o :: o in vtables ==> !SameVtable(data, o, vt)
  {
    if vtables == [] then None
    else if SameVtable(data, vtables[0], vt) then Some(vtables[0])
    else FindVtable(data, vtables[1..], vt)
  }

  predicate TableStarted(st: Fbb, start: nat) {
    && start <= |st.data| && MaxOk(st.maxVoffset)
    && FieldsFit(st.fields, |PushElement(st, 0, 4).data|, VtableSize(st.maxVoffset))
  }

  /** The end of EndTable: point the table head at a vtable, either the one
      found at an earlier end-offset or the new one, which is then kept. */
  function CloseTable(st: Fbb, body: Fbb, slots: seq<nat>, found: Option<nat>): Fbb
    requires |body.data| >= 4
  {
    var loc := |body.data|;
    var clean := body.(fields := [], maxVoffset := 0);
    match found
    case Some(o) =>
      clean.(data := Le(ToU32(o - loc), 4) + body.data[4..])
    case None =>
      var vt := EncodeSlots(slots);
      clean.(data := vt + (Le(ToU32(|vt|), 4) + body.data[4..]), vtables := st.vtables + [loc + |vt|])
  }

  /** The earlier vtable to share, when sharing is on and there is one. */
  function SharedVtable(st: Fbb, body: Fbb, slots: seq<nat>): (r: Option<nat>)
    ensures r.Some? ==> r.value in st.vtables && SameVtable(body.data, r.value, EncodeSlots(slots))
  {
    if st.dedup then FindVtable(body.data, st.vtables, EncodeSlots(slots)) else None
  }

  /** EndTable: None when the object does not fit 16-bit vtable entries, the
      assertion table_object_size < 0x10000. */
  function EndTable(st: Fbb, start: nat): (r: Option<(Fbb, nat)>)
    requires TableStarted(st, start)
  {
    var body := PushElement(st, 0, 4);
    var loc := |body.data|;
    if loc - start >= TWO16 then None else
    var slots := VtableSlots(st, loc, loc - start);
    Some((CloseTable(st, body, slots, SharedVtable(st, body, slots)), loc))
  }

  // ---------------------------------------------------------------------
  // Strings, vectors of offsets, and the root

  function CreateString(st: Fbb, s: seq<Byte>): Fbb {
    PushElement(PushBytes(PushBytes(PreAlign(st, |s| + 1, 4), Zeros(1)), s), |s|, 4)
  }

  predicate OffsetsWithin(offs: seq<nat>, n: nat) {
    forall i :: 0 <= i < |offs| ==> offs[i] <= n
  }

  /** The elements are pushed from the last to the first. */
  function PushOffsets(st: Fbb, offs: seq<nat>): (r: Fbb)
    requires OffsetsWithin(offs, |st.data|)
    ensures |r.data| >= |st.data|
    decreases |offs|
  {
    if offs == [] then st else PushOffset(PushOffsets(st, offs[1..]), offs[0])
  }

  function CreateVector(st: Fbb, offs: seq<nat>): Fbb
    requires OffsetsWithin(offs, |st.data|)
  {
    PushElement(PushOffsets(PreAlign(st, |offs| * 4, 4), offs), |offs|, 4)
  }

  /** clear_scratch forgets the vtables. */
  function Cleared(st: Fbb): Fbb {
    st.(vtables := [], fields := [])
  }

  /** Finish without file identifier or size prefix. */
  function Finish(st: Fbb, root: nat): Fbb
    requires root <= |st.data| && st.minalign >= 1
  {
    PushOffset(PreAlign(Cleared(st), 4, st.minalign), root)
  }

  // ---------------------------------------------------------------------
  // Writing a whole tree, children first, as the generated Create functions do

  function AddField(st: Fbb, f: Field, off: nat): (r: Fbb)
    requires off <= |st.data| && (f.Scalar? ==> f.width >= 1)
    ensures |r.data| >= |st.data|
  {
    match f
    case Scalar(id, w, v, d) => AddScalar(st, id, v, w, d)
    case Ref(id, _) => AddOffset(st, id, off)
  }

  predicate WidthsOk(fs: seq<Field>) {
    forall i :: 0 <= i < |fs| ==> fs[i].Scalar? ==> fs[i].width >= 1
  }

  function AddFields(st: Fbb, fs: seq<Field>, offs: seq<nat>): (r: Fbb)
    requires |offs| == |fs| && OffsetsWithin(offs, |st.data|) && WidthsOk(fs)
    ensures |r.data| >= |st.data|
    decreases |fs|
  {
    if fs == [] then st else
    var n := |fs| - 1;
    AddField(AddFields(st, fs[..n], offs[..n]), fs[n], offs[n])
  }
}

/** Everything the builder writes is read back: pushes, fields, vtables
    (shared or new), strings, vectors and whole trees. */
module BuilderRoundTrip {
  import opened Bytes
  import opened Reader
  import opened WireValue
  import opened BuilderSpec

  // ---------------------------------------------------------------------
  // The builder only ever grows its data at the low end

  predicate Extends(st: Fbb, st': Fbb) {
    && |st.data| <= |st'.data|
    && st'.data[|st'.data| - |st.data|..] == st.data
    && st.minalign <= st'.minalign
    && st.vtables <= st'.vtables
    && st.forceDefaults == st'.forceDefaults && st.dedup == st'.dedup
  }

  lemma ExtendsTrans(a: Fbb, b: Fbb, c: Fbb)
    requires Extends(a, b) && Extends(b, c)
    ensures Extends(a, c)
  {
    var n := |b.data| - |a.data|;
    assert c.data[|c.data| - |a.data|..] == c.data[|c.data| - |b.data|..][n..];
  }

  function LayoutOf(st: Fbb): Layout { Layout(st.minalign, st.forceDefaults) }

  /** The bytes that were added. */
  function Added(st: Fbb, st': Fbb): (x: Buffer)
    requires Extends(st, st')
    ensures x + st.data == st'.data
  {
    st'.data[..|st'.data| - |st.data|]
  }

  /** A scalar of w bytes with value v sits at end-offset o, aligned. */
  predicate Placed(st: Fbb, o: nat, w: nat, v: nat) {
    && 1 <= w <= o <= |st.data| && Mult(o, w) && w <= st.minalign
    && Rd(st.data, |st.data| - o, w) == Some(v)
  }

  lemma PlacedGrow(st: Fbb, st': Fbb, o: nat, w: nat, v: nat)
    requires Placed(st, o, w, v) && Extends(st, st')
    ensures Placed(st', o, w, v)
  {
    RdGrow(Added(st, st'), st.data, |st.data| - o, w);
  }

  lemma PreAlignFacts(st: Fbb, len: nat, a: nat)
    requires a >= 1
    ensures Extends(st, PreAlign(st, len, a))
    ensures Mult(|PreAlign(st, len, a).data| + len, a)
    ensures |st.data| <= |PreAlign(st, len, a).data| < |st.data| + a
    ensures forall i :: 0 <= i < |PreAlign(st, len, a).data| - |st.data| ==> PreAlign(st, len, a).data[i] == 0
    ensures PreAlign(st, len, a).minalign == Max(st.minalign, a)
    ensures Mult(|st.data| + len, a) ==> |PreAlign(st, len, a).data| == |st.data|
  {
    PaddingAligns(|st.data| + len, a);
    if (|st.data| + len) % a == 0 {
      DivMod(|st.data| + len, a);
      var q := (|st.data| + len) / a;
      assert 0 - (|st.data| + len) == a * (-q) + 0;
      ModUnique(0 - (|st.data| + len), a, -q, 0);
    }
  }

  lemma PushBytesExtends(st: Fbb, v: nat, w: nat)
    ensures Extends(st, PushBytes(st, Le(v, w)))
  {
  }

  lemma PushBytesFacts(st: Fbb, v: nat, w: nat)
    requires v < Pow256(w)
    ensures Extends(st, PushBytes(st, Le(v, w)))
    ensures Rd(PushBytes(st, Le(v, w)).data, 0, w) == Some(v)
  {
    var r := PushBytes(st, Le(v, w));
    assert r.data[0..w] == Le(v, w);
    DeLe(v, w);
  }

  lemma StepMod(n: nat, w: nat)
    requires IsAlign(w) && Mult(n, w)
    ensures Mult(n + w, w)
  {
  }

  /** PushElement stores the value aligned at the new size. */
  lemma PushElementFacts(st: Fbb, v: nat, w: nat)
    requires IsAlign(w) && v < Pow256(w)
    ensures Extends(st, PushElement(st, v, w))
    ensures Placed(PushElement(st, v, w), |PushElement(st, v, w).data|, w, v)
    ensures |PushElement(st, v, w).data| >= |st.data| + w
  {
    hide PreAlign, Extends, Le, Rd, Mult, Pow256;
    PreAlignFacts(st, 0, w);
    var a := AlignTo(st, w);
    PushBytesFacts(a, v, w);
    ExtendsTrans(st, a, PushElement(st, v, w));
    StepMod(|a.data|, w);
  }

  lemma PushElementTight(st: Fbb, v: nat, w: nat)
    requires Mult(|st.data|, w)
    ensures |PushElement(st, v, w).data| == |st.data| + w
  {
    PreAlignFacts(st, 0, w);
  }

  lemma PushElementExtends(st: Fbb, v: nat, w: nat)
    requires IsAlign(w)
    ensures Extends(st, PushElement(st, v, w))
    ensures |PushElement(st, v, w).data| >= |st.data| + w
    ensures Mult(|PushElement(st, v, w).data|, w)
  {
    hide PreAlign, Extends, Le, Mult;
    PreAlignFacts(st, 0, w);
    var a := AlignTo(st, w);
    PushBytesExtends(a, v, w);
    ExtendsTrans(st, a, PushElement(st, v, w));
    StepMod(|a.data|, w);
  }

  lemma PushOffsetExtends(st: Fbb, off: nat)
    requires off <= |st.data|
    ensures Extends(st, PushOffset(st, off))
    ensures |PushOffset(st, off).data| >= |st.data| + 4
    ensures Mult(|PushOffset(st, off).data|, 4)
  {
    hide PushElement, AlignTo, Extends, Mult;
    PreAlignFacts(st, 0, 4);
    AlignExtends(st, 4);
    PushElementExtends(AlignTo(st, 4), Relative(st, off), 4);
    ExtendsTrans(st, AlignTo(st, 4), PushOffset(st, off));
  }

  /** Pushing touches nothing but the data and the largest alignment seen. */
  predicate SameTables(st: Fbb, p: Fbb) {
    p.fields == st.fields && p.maxVoffset == st.maxVoffset && p.vtables == st.vtables
  }

  lemma PushMeta(st: Fbb, v: nat, w: nat, off: nat)
    requires IsAlign(w) && off <= |st.data|
    ensures SameTables(st, PushElement(st, v, w)) && SameTables(st, PushOffset(st, off))
    ensures PushElement(st, v, w).minalign == Max(st.minalign, w)
    ensures PushOffset(st, off).minalign == Max(st.minalign, 4)
  {
  }

  lemma AlignExtends(st: Fbb, a: nat)
    requires a >= 1
    ensures Extends(st, AlignTo(st, a)) && |AlignTo(st, a).data| >= |st.data|
    ensures Mult(|AlignTo(st, a).data|, a)
    ensures Mult(|st.data|, a) ==> |AlignTo(st, a).data| == |st.data|
  {
    PreAlignFacts(st, 0, a);
  }

  lemma PushOffsetTight(st: Fbb, off: nat)
    requires off <= |st.data| && Mult(|st.data|, 4)
    ensures |PushOffset(st, off).data| == |st.data| + 4
  {
    hide PushElement, AlignTo;
    AlignExtends(st, 4);
    PushElementTight(AlignTo(st, 4), Relative(st, off), 4);
  }

  /** An offset written through ReferTo leads to its target's end-offset. */
  lemma PushOffsetFacts(st: Fbb, off: nat)
    requires off <= |st.data| && |PushOffset(st, off).data| <= MAX_BUFFER_SIZE
    ensures var r := PushOffset(st, off); Placed(r, |r.data|, 4, |r.data| - off)
  {
    PreAlignFacts(st, 0, 4);
    var a := AlignTo(st, 4);
    Widths();
    assert |PushOffset(st, off).data| >= |a.data|;
    PushElementFacts(a, Relative(st, off), 4);
    PushElementTight(a, Relative(st, off), 4);
  }

  // ---------------------------------------------------------------------
  // Vtables

  /** The vtable at end-offset o is complete inside the data. */
  predicate VtOk(data: Buffer, o: nat) {
    && 4 <= o <= |data| && Mult(o, 2)
    && var m := Rd(data, |data| - o, 2);
       m.Some? && 4 <= m.value <= o && m.value % 2 == 0
  }

  predicate VtablesOk(st: Fbb) {
    forall k :: 0 <= k < |st.vtables| ==> VtOk(st.data, st.vtables[k])
  }

  /** Between objects. */
  predicate Inv(st: Fbb) {
    IsAlign(st.minalign) && st.fields == [] && st.maxVoffset == 0 && VtablesOk(st)
  }

  predicate DistinctIds(fields: seq<FieldLoc>) {
    forall j, k :: 0 <= j < k < |fields| ==> fields[j].id != fields[k].id
  }

  /** Inside a table that was started at size `start`. */
  predicate Building(st: Fbb, start: nat) {
    && start <= |st.data| && IsAlign(st.minalign) && VtablesOk(st)
    && MaxOk(st.maxVoffset)
    && DistinctIds(st.fields)
    && forall k :: 0 <= k < |st.fields| ==>
         && IsFieldId(st.fields[k].id) && st.fields[k].id <= st.maxVoffset
         && start < st.fields[k].off <= |st.data|
  }

  lemma VtablesGrow(st: Fbb, st': Fbb)
    requires Extends(st, st') && VtablesOk(st) && st'.vtables == st.vtables
    ensures VtablesOk(st')
  {
    forall k | 0 <= k < |st'.vtables|
      ensures VtOk(st'.data, st'.vtables[k])
    {
      RdGrow(Added(st, st'), st.data, |st.data| - st.vtables[k], 2);
    }
  }

  /** Where the field with this id was stored, if it was. */
  function FieldAt(fields: seq<FieldLoc>, id: nat): (r: Option<nat>)
    ensures r.None? <==> forall k :: 0 <= k < |fields| ==> fields[k].id != id
    decreases |fields|
  {
    if fields == [] then None else
    var n := |fields| - 1;
    if fields[n].id == id then Some(fields[n].off) else FieldAt(fields[..n], id)
  }

  lemma {:induction false} FieldAtIndex(fields: seq<FieldLoc>, k: nat)
    requires DistinctIds(fields) && k < |fields|
    ensures FieldAt(fields, fields[k].id) == Some(fields[k].off)
    decreases |fields|
  {
    var n := |fields| - 1;
    if k < n {
      FieldAtIndex(fields[..n], k);
    }
  }

  /** Each slot holds its own field's distance; all other slots are untouched. */
  lemma {:induction false} SlotsRead(base: seq<nat>, loc: nat, fields: seq<FieldLoc>, j: nat)
    requires FieldsFit(fields, loc, 2 * |base|) && j % 2 == 0 && j + 2 <= 2 * |base|
    ensures Slots(base, loc, fields)[j / 2]
         == match FieldAt(fields, j) case Some(o) => loc - o case None => base[j / 2]
    decreases |fields|
  {
    if fields != [] {
      SlotsRead(base, loc, fields[..|fields| - 1], j);
    }
  }

  lemma EncodeRead(slots: seq<nat>, i: nat)
    requires i < |slots| && slots[i] < TWO16
    ensures De(EncodeSlots(slots)[2 * i..2 * i + 2]) == slots[i]
  {
    var e := EncodeSlots(slots)[2 * i..2 * i + 2];
    assert e == [slots[i] % 256, slots[i] / 256];
    assert De(e) == e[0] + 256 * De(e[1..]) && De(e[1..]) == e[1] + 256 * De(e[1..][1..]);
  }

  lemma SubSlice(data: Buffer, q: nat, n: nat, i: nat, j: nat)
    requires q + n <= |data| && i <= j <= n
    ensures data[q..][..n][i..j] == data[q + i..q + j]
  {
  }

  predicate SlotsOk(slots: seq<nat>) {
    2 <= |slots| && slots[0] == 2 * |slots| < TWO16
  }

  /** The table at loc points at vtUse, where its vtable is stored. */
  predicate TableAt(data: Buffer, loc: nat, vtUse: nat, slots: seq<nat>) {
    && 4 <= loc <= |data| && 2 * |slots| <= vtUse <= |data|
    && data[|data| - loc..][..4] == Le(ToU32(vtUse - loc), 4)
    && data[|data| - vtUse..][..2 * |slots|] == EncodeSlots(slots)
  }

  /** FieldOffset through a vtable stored anywhere in the buffer. */
  lemma VtableReads(data: Buffer, loc: nat, vtUse: nat, slots: seq<nat>, id: nat)
    requires TableAt(data, loc, vtUse, slots) && |data| <= MAX_BUFFER_SIZE
    requires SlotsOk(slots) && IsFieldId(id)
    requires id < 2 * |slots| ==> slots[id / 2] < TWO16
    ensures FieldOffset(data, |data| - loc, id)
         == Some(if id < 2 * |slots| then slots[id / 2] else 0)
  {
    HeadReads(data, loc, vtUse, slots);
    SlotReads(data, vtUse, slots, 0);
    if id < 2 * |slots| {
      SlotReads(data, vtUse, slots, id / 2);
    }
    hide TableAt, Rd, VTable;
  }

  lemma HeadReads(data: Buffer, loc: nat, vtUse: nat, slots: seq<nat>)
    requires TableAt(data, loc, vtUse, slots) && |data| <= MAX_BUFFER_SIZE
    ensures VTable(data, |data| - loc) == Some(|data| - vtUse)
  {
    var p := |data| - loc;
    assert data[p..p + 4] == data[p..][..4];
    Widths();
    DeLe(ToU32(vtUse - loc), 4);
    SignedRoundTrip(vtUse - loc);
  }

  lemma SlotReads(data: Buffer, vtUse: nat, slots: seq<nat>, i: nat)
    requires 2 * |slots| <= vtUse <= |data|
    requires data[|data| - vtUse..][..2 * |slots|] == EncodeSlots(slots)
    requires i < |slots| && slots[i] < TWO16
    ensures Rd(data, |data| - vtUse + 2 * i, 2) == Some(slots[i])
  {
    EncodeRead(slots, i);
    SubSlice(data, |data| - vtUse, 2 * |slots|, 2 * i, 2 * i + 2);
  }

  /** What slot id of the vtable holds. */
  function SlotValue(st: Fbb, loc: nat, id: nat): int {
    match FieldAt(st.fields, id) case Some(o) => loc - o case None => 0
  }

  lemma FieldAtBounds(st: Fbb, start: nat, id: nat)
    requires Building(st, start)
    ensures FieldAt(st.fields, id).Some? ==>
      id <= st.maxVoffset && start < FieldAt(st.fields, id).value <= |st.data|
  {
    if FieldAt(st.fields, id).Some? {
      var k :| 0 <= k < |st.fields| && st.fields[k].id == id;
      FieldAtIndex(st.fields, k);
    }
  }

  /** The vtable names its own size and gives every field its slot. */
  lemma VtableSlotsFacts(st: Fbb, start: nat, loc: nat, size: nat, id: nat)
    requires Building(st, start) && |st.data| < loc && loc - start < TWO16
    requires FieldsFit(st.fields, loc, VtableSize(st.maxVoffset)) && IsFieldId(id)
    ensures var slots := VtableSlots(st, loc, size);
      && slots[0] == 2 * |slots|
      && if id < 2 * |slots| then slots[id / 2] == SlotValue(st, loc, id) < TWO16
         else SlotValue(st, loc, id) == 0
  {
    var m := VtableSize(st.maxVoffset);
    var base := [m, size] + seq(m / 2 - 2, _ => 0);
    FieldAtBounds(st, start, id);
    SlotsRead(base, loc, st.fields, 0);
    if id < m {
      SlotsRead(base, loc, st.fields, id);
    }
  }

  // ---------------------------------------------------------------------
  // EndTable

  lemma TableIsStarted(st: Fbb, start: nat)
    requires Building(st, start)
    ensures TableStarted(st, start)
    ensures |PushElement(st, 0, 4).data| >= |st.data| + 4
  {
    PushElementFacts(st, 0, 4);
  }

  /** Sharing: the data below the table head is untouched, and the old vtable
      reads byte for byte like the one that was dropped. */
  lemma SharedLayout(st: Fbb, body: Fbb, slots: seq<nat>, o: nat)
    requires Extends(st, body) && |body.data| >= |st.data| + 4 && body.vtables == st.vtables
    requires o <= |st.data| && SameVtable(body.data, o, EncodeSlots(slots))
    ensures var data' := CloseTable(st, body, slots, Some(o)).data;
      && |data'| == |body.data|
      && TableAt(data', |body.data|, o, slots)
      && Extends(st, CloseTable(st, body, slots, Some(o)))
  {
    var loc := |body.data|;
    var data' := CloseTable(st, body, slots, Some(o)).data;
    assert data'[loc - o..] == body.data[loc - o..];
    assert data'[loc - |st.data|..] == body.data[loc - |st.data|..];
  }

  lemma FreshLayout(st: Fbb, body: Fbb, slots: seq<nat>)
    requires Extends(st, body) && |body.data| >= |st.data| + 4 && body.vtables == st.vtables
    ensures var data' := CloseTable(st, body, slots, None).data;
      && |data'| == |body.data| + 2 * |slots|
      && TableAt(data', |body.data|, |data'|, slots)
      && Extends(st, CloseTable(st, body, slots, None))
  {
    var vt := EncodeSlots(slots);
    var rest := Le(ToU32(|vt|), 4) + body.data[4..];
    hide EncodeSlots, Le, ToU32, TableAt;
    FreshTable(vt, rest, slots);
    SuffixOf(vt, rest, |st.data|);
    SameSuffix(body.data, 4, Le(ToU32(|vt|), 4), |st.data|);
  }

  /** A vtable directly in front of its table. */
  lemma FreshTable(vt: Buffer, rest: Buffer, slots: seq<nat>)
    requires vt == EncodeSlots(slots) && 4 <= |rest| && rest[..4] == Le(ToU32(|vt|), 4)
    ensures TableAt(vt + rest, |rest|, |vt + rest|, slots)
  {
    hide EncodeSlots, Le, ToU32;
    FrontOf(vt, rest);
    SuffixOf(vt, rest, |rest|);
  }

  lemma FrontOf(x: Buffer, y: Buffer)
    ensures (x + y)[0..][..|x|] == x
  {
  }

  lemma SuffixOf(x: Buffer, y: Buffer, n: nat)
    requires n <= |y|
    ensures (x + y)[|x + y| - n..] == y[|y| - n..]
  {
  }

  lemma SameSuffix(d: Buffer, k: nat, head: Buffer, n: nat)
    requires k <= |d| && |head| == k && n <= |d| - k
    ensures (head + d[k..])[|d| - n..] == d[|d| - n..]
  {
  }

  /** What EndTable knows about the vtable it looked up. */
  predicate FoundOk(st: Fbb, body: Fbb, slots: seq<nat>, found: Option<nat>) {
    found.Some? ==> found.value in st.vtables && SameVtable(body.data, found.value, EncodeSlots(slots))
  }

  /** Where the vtable of the closed table is. */
  function VtUse(body: Fbb, slots: seq<nat>, found: Option<nat>): nat {
    if found.Some? then found.value else |body.data| + 2 * |slots|
  }

  lemma CloseLayout(st: Fbb, body: Fbb, slots: seq<nat>, found: Option<nat>)
    requires Extends(st, body) && |body.data| >= |st.data| + 4 && VtablesOk(st)
    requires body.vtables == st.vtables && FoundOk(st, body, slots, found)
    ensures var st' := CloseTable(st, body, slots, found);
      && TableAt(st'.data, |body.data|, VtUse(body, slots, found), slots)
      && Extends(st, st') && st'.minalign == body.minalign && |body.data| <= |st'.data|
      && st'.fields == [] && st'.maxVoffset == 0
      && st'.vtables == st.vtables + (if found.None? then [|st'.data|] else [])
      && if found.None? then VtUse(body, slots, found) == |st'.data| == |body.data| + 2 * |slots| else |st'.data| == |body.data|
  {
    hide TableAt, Extends, EncodeSlots, Le;
    if found.Some? {
      SharedLayout(st, body, slots, found.value);
    } else {
      FreshLayout(st, body, slots);
    }
  }

  lemma VtOkGrow(st: Fbb, st': Fbb, o: nat)
    requires Extends(st, st') && VtOk(st.data, o)
    ensures VtOk(st'.data, o)
  {
    RdGrow(Added(st, st'), st.data, |st.data| - o, 2);
  }

  lemma NewVtOk(data: Buffer, slots: seq<nat>)
    requires SlotsOk(slots) && 2 * |slots| <= |data| && data[0..][..2 * |slots|] == EncodeSlots(slots)
    requires Mult(|data|, 2)
    ensures VtOk(data, |data|)
  {
    EncodeRead(slots, 0);
    SubSlice(data, 0, 2 * |slots|, 0, 2);
  }

  /** EndTable keeps every remembered vtable complete, the new one included. */
  lemma CloseInv(st: Fbb, body: Fbb, slots: seq<nat>, found: Option<nat>)
    requires Extends(st, body) && |body.data| >= |st.data| + 4 && VtablesOk(st)
    requires body.vtables == st.vtables && FoundOk(st, body, slots, found)
    requires IsAlign(body.minalign) && SlotsOk(slots) && Mult(|body.data|, 4)
    ensures Inv(CloseTable(st, body, slots, found))
  {
    hide CloseTable, EncodeSlots, TableAt, VtOk, Extends, SlotsOk, Mult;
    CloseLayout(st, body, slots, found);
    var st' := CloseTable(st, body, slots, found);
    forall k | 0 <= k < |st.vtables|
      ensures VtOk(st'.data, st.vtables[k])
    {
      VtOkGrow(st, st', st.vtables[k]);
    }
    if found.None? {
      NewVtFromTable(st'.data, |body.data|, slots);
    }
  }

  lemma NewVtFromTable(data: Buffer, loc: nat, slots: seq<nat>)
    requires TableAt(data, loc, |data|, slots) && SlotsOk(slots) && Mult(loc, 4) && |data| == loc + 2 * |slots|
    ensures VtOk(data, |data|)
  {
    EvenSum(loc, |slots|);
    NewVtOk(data, slots);
  }

  lemma EvenSum(loc: nat, n: nat)
    requires Mult(loc, 4)
    ensures Mult(loc + 2 * n, 2)
  {
  }

  lemma VtUseEven(st: Fbb, body: Fbb, slots: seq<nat>, found: Option<nat>)
    requires VtablesOk(st) && FoundOk(st, body, slots, found) && Mult(|body.data|, 4)
    ensures Mult(VtUse(body, slots, found), 2) && (found.Some? ==> found.value <= |st.data|)
  {
    hide SameVtable, EncodeSlots;
    if found.None? { EvenSum(|body.data|, |slots|); }
  }

  /** Reading a slot of the closed table. */
  lemma CloseReads(st: Fbb, body: Fbb, slots: seq<nat>, found: Option<nat>, id: nat)
    requires Extends(st, body) && |body.data| >= |st.data| + 4 && VtablesOk(st)
    requires body.vtables == st.vtables && FoundOk(st, body, slots, found)
    requires SlotsOk(slots) && IsFieldId(id) && (id < 2 * |slots| ==> slots[id / 2] < TWO16)
    requires |CloseTable(st, body, slots, found).data| <= MAX_BUFFER_SIZE
    ensures var data' := CloseTable(st, body, slots, found).data;
      FieldOffset(data', |data'| - |body.data|, id)
      == Some(if id < 2 * |slots| then slots[id / 2] else 0)
  {
    hide CloseTable, TableAt, FieldOffset, Extends, VtablesOk, FoundOk;
    CloseLayout(st, body, slots, found);
    var st' := CloseTable(st, body, slots, found);
    VtableReads(st'.data, |body.data|, VtUse(body, slots, found), slots, id);
  }

  predicate Closable(st: Fbb, start: nat) {
    Building(st, start) && TableStarted(st, start) && EndTable(st, start).Some?
  }

  lemma BodyFacts(st: Fbb)
    requires IsAlign(st.minalign)
    ensures var body := PushElement(st, 0, 4);
      && Extends(st, body) && |body.data| >= |st.data| + 4 && Mult(|body.data|, 4)
      && IsAlign(body.minalign) && 4 <= body.minalign && body.vtables == st.vtables
  {
    PushElementFacts(st, 0, 4);
  }

  lemma EndTableFacts(st: Fbb, start: nat)
    requires Closable(st, start)
    ensures var (st', loc) := EndTable(st, start).value;
      && Extends(st, st') && Inv(st') && 4 <= st'.minalign
      && start + 4 <= loc <= |st'.data| && Mult(loc, 4)
  {
    hide PushElement, VtableSlots, CloseTable, SharedVtable, VtablesOk, TableAt, Extends;
    BodyFacts(st);
    var body := PushElement(st, 0, 4);
    var slots := VtableSlots(st, |body.data|, |body.data| - start);
    VtableSlotsFacts(st, start, |body.data|, |body.data| - start, 4);
    var found := SharedVtable(st, body, slots);
    CloseLayout(st, body, slots, found);
    CloseInv(st, body, slots, found);
  }

  /** Reading any field offset of the finished table, shared vtable or not. */
  lemma EndTableReads(st: Fbb, start: nat, id: nat)
    requires Closable(st, start) && IsFieldId(id)
    requires |EndTable(st, start).value.0.data| <= MAX_BUFFER_SIZE
    ensures var (st', loc) := EndTable(st, start).value;
      && 0 <= SlotValue(st, loc, id)
      && FieldOffset(st'.data, |st'.data| - loc, id) == Some(SlotValue(st, loc, id))
  {
    hide PushElement, VtableSlots, CloseTable, SharedVtable, VtablesOk, TableAt, Extends;
    BodyFacts(st);
    var body := PushElement(st, 0, 4);
    var slots := VtableSlots(st, |body.data|, |body.data| - start);
    VtableSlotsFacts(st, start, |body.data|, |body.data| - start, id);
    CloseReads(st, body, slots, SharedVtable(st, body, slots), id);
  }

  /** The finished table's vtable, its own or an earlier one, is whole. */
  lemma EndTableVtable(st: Fbb, start: nat)
    requires Closable(st, start)
    requires |EndTable(st, start).value.0.data| <= MAX_BUFFER_SIZE
    ensures var (st', loc) := EndTable(st, start).value;
      VtableInside(st'.data, |st'.data| - loc)
  {
    hide PushElement, VtableSlots, CloseTable, SharedVtable, TableAt, Extends, VtablesOk, VtableInside, Mult, SameVtable;
    BodyFacts(st);
    var body := PushElement(st, 0, 4);
    var slots := VtableSlots(st, |body.data|, |body.data| - start);
    VtableSlotsFacts(st, start, |body.data|, |body.data| - start, 4);
    var found := SharedVtable(st, body, slots);
    CloseLayout(st, body, slots, found);
    VtUseEven(st, body, slots, found);
    var data := EndTable(st, start).value.0.data;
    TableVtable(data, |body.data|, VtUse(body, slots, found), slots);
  }

  lemma TableVtable(data: Buffer, loc: nat, vtUse: nat, slots: seq<nat>)
    requires TableAt(data, loc, vtUse, slots) && |data| <= MAX_BUFFER_SIZE && SlotsOk(slots) && Mult(vtUse, 2)
    requires vtUse < |data| || 2 * |slots| < |data|
    ensures VtableInside(data, |data| - loc)
  {
    HeadReads(data, loc, vtUse, slots);
    SlotReads(data, vtUse, slots, 0);
    hide Rd, VTable, EncodeSlots, Le, ToU32;
  }
}

/** What a buffer means: trees of tables, strings and vectors of offsets, and
    the relation that says the accessors read such a tree at a position. */
module WireValue {
  import opened Bytes
  import opened Reader

  datatype Value =
    | Str(bytes: seq<Byte>)
    | Vec(elems: seq<Value>)
    | Table(fields: seq<Field>)

  /** A table field: `id` is its vtable offset; a scalar is the bit pattern of
      `width` bytes together with the default its accessor returns. */
  datatype Field =
    | Scalar(id: nat, width: nat, value: nat, def: nat)
    | Ref(id: nat, target: Value)

  /** Vtable offsets of fields are even, start at 4 and fit a voffset_t. */
  predicate IsFieldId(id: nat) { 4 <= id <= 0xFFFC && id % 2 == 0 }

  predicate DistinctFields(fs: seq<Field>) {
    forall i, j :: 0 <= i < j < |fs| ==> fs[i].id != fs[j].id
  }

  /** The ranges the C++ types impose; no field is set twice. */
  predicate WfField(f: Field) {
    && IsFieldId(f.id)
    && match f
       case Scalar(_, w, v, d) => IsAlign(w) && v < Pow256(w)
       case Ref(_, t) => Wf(t)
  }

  predicate Wf(v: Value) {
    match v
    case Str(_) => true
    case Vec(es) => forall i :: 0 <= i < |es| ==> Wf(es[i])
    case Table(fs) => DistinctFields(fs) && forall i :: 0 <= i < |fs| ==> WfField(fs[i])
  }

  predicate HasField(fs: seq<Field>, id: nat) {
    exists i :: 0 <= i < |fs| && fs[i].id == id
  }

  /** How a buffer was laid out: the largest alignment used, and whether fields
      equal to their default were stored all the same. */
  datatype Layout = Layout(align: nat, force: bool)

  predicate Wider(a: Layout, a': Layout) { a.align <= a'.align && a.force == a'.force }

  /** Reading f from the table at p gives what was put there; a scalar is left out
      exactly if it equals its default and defaults are not forced, and every one
      stored lies at an end-offset divisible by its size, which is at most a.align. */
  ghost predicate FieldHolds(b: Buffer, p: int, f: Field, a: Layout)
    decreases f, 0
  {
    var o := FieldOffset(b, p, f.id);
    && o.Some?
    && match f
       case Scalar(id, w, v, d) =>
         && GetField(b, p, id, w, d) == Some(v) && (o.value == 0 <==> v == d && !a.force)
         && (o.value != 0 ==> Mult(|b| - (p + o.value), w) && w <= a.align)
       case Ref(id, t) =>
         && o.value != 0 && Mult(|b| - (p + o.value), 4)
         && GetPointer(b, p, id).Some? && GetPointer(b, p, id).value.Some?
         && p + o.value < GetPointer(b, p, id).value.value
         && Holds(b, GetPointer(b, p, id).value.value, t, a)
  }

  ghost predicate ElemHolds(b: Buffer, q: Option<int>, e: Value, a: Layout)
    decreases e, 1
  {
    q.Some? && Holds(b, q.value, e, a)
  }

  /** The accessors read exactly the tree v at position p, all scalars being
      aligned relative to the buffer's end, with alignments of at most a.align. */
  ghost predicate Holds(b: Buffer, p: int, v: Value, a: Layout)
    decreases v, 0
  {
    && 4 <= a.align && 0 <= p <= |b| && Mult(|b| - p, 4)
    && match v
       case Str(s) =>
         && StrBytes(b, p) == Some(s)
         && Rd(b, p + 4 + |s|, 1) == Some(0)
       case Vec(es) =>
         && VecSize(b, p) == Some(|es|)
         && (forall i :: 0 <= i < |es| ==> ElemHolds(b, VecGet(b, p, i), es[i], a))
       case Table(fs) =>
         && VtableInside(b, p)
         && (forall i :: 0 <= i < |fs| ==> FieldHolds(b, p, fs[i], a))
         && (forall id :: IsFieldId(id) && !HasField(fs, id) ==> FieldOffset(b, p, id) == Some(0))
  }

  /** Prepending bytes, or admitting larger alignments, changes no reading. */
  lemma {:induction false} HoldsGrow(x: Buffer, b: Buffer, p: int, v: Value, a: Layout, a': Layout)
    requires Holds(b, p, v, a) && Wider(a, a')
    ensures Holds(x + b, |x| + p, v, a')
    decreases v
  {
    match v
    case Str(s) =>
      StrGrow(x, b, p);
      RdGrow(x, b, p + 4 + |s|, 1);
    case Vec(es) =>
      RdGrow(x, b, p, 4);
      assert VecSize(x + b, |x| + p) == VecSize(b, p);
      forall i | 0 <= i < |es|
        ensures ElemHolds(x + b, VecGet(x + b, |x| + p, i), es[i], a')
      {
        VecGetGrow(x, b, p, i);
        HoldsGrow(x, b, VecGet(b, p, i).value, es[i], a, a');
      }
    case Table(fs) =>
      VtableInsideGrow(x, b, p);
      forall i | 0 <= i < |fs|
        ensures FieldHolds(x + b, |x| + p, fs[i], a')
      {
        FieldHoldsGrow(x, b, p, fs[i], a, a');
      }
      forall id | IsFieldId(id) && !HasField(fs, id)
        ensures FieldOffset(x + b, |x| + p, id) == Some(0)
      {
        FieldOffsetGrow(x, b, p, id);
      }
  }

  lemma {:induction false} FieldHoldsGrow(x: Buffer, b: Buffer, p: int, f: Field, a: Layout, a': Layout)
    requires FieldHolds(b, p, f, a) && Wider(a, a')
    ensures FieldHolds(x + b, |x| + p, f, a')
    decreases f
  {
    FieldOffsetGrow(x, b, p, f.id);
    match f
    case Scalar(id, w, v, d) =>
      GetFieldGrow(x, b, p, id, w, d);
    case Ref(id, t) =>
      GetPointerGrow(x, b, p, id);
      HoldsGrow(x, b, GetPointer(b, p, id).value.value, t, a, a');
  }
}

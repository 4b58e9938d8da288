/** Finished buffers: encode a tree, find it again from the root, and find
    every scalar aligned when counted from the start of the buffer. */
module FinishedBuffer {
  import opened Bytes
  import opened Reader
  import opened WireValue
  import opened BuilderSpec
  import opened BuilderRoundTrip
  import opened TreeRoundTrip
  import opened TreeWriter

  lemma FinishFacts(st: Fbb, root: nat)
    requires IsAlign(st.minalign) && 4 <= st.minalign && root <= |st.data|
    ensures var r := Finish(st, root);
      && Extends(Cleared(st), r) && LayoutOf(r) == LayoutOf(st) && Mult(|r.data|, st.minalign)
  {
    var c := Cleared(st);
    PreAlignFacts(c, 4, st.minalign);
    var a := PreAlign(c, 4, st.minalign);
    FinishMult(|a.data|, st.minalign);
    hide PreAlign, Extends, Mult;
    PushOffsetTight(a, root);
    PushOffsetExtends(a, root);
    PushMeta(a, 0, 4, root);
    ExtendsTrans(c, a, Finish(st, root));
    ExtendsLayout(c, Finish(st, root));
  }

  lemma ExtendsLayout(st: Fbb, st': Fbb)
    requires Extends(st, st')
    ensures st'.forceDefaults == st.forceDefaults
  {
  }

  lemma FinishMult(n: nat, a: nat)
    requires IsAlign(a) && 4 <= a && Mult(n + 4, a)
    ensures Mult(n, 4)
  {
  }

  /** GetRoot finds the object that was passed to Finish. */
  lemma FinishRoot(st: Fbb, root: nat)
    requires IsAlign(st.minalign) && root <= |st.data|
    requires |Finish(st, root).data| <= MAX_BUFFER_SIZE
    ensures var b := Finish(st, root).data; root + 4 <= |b| && Root(b) == Some(|b| - root)
  {
    PushOffsetFacts(PreAlign(Cleared(st), 4, st.minalign), root);
  }

  /** The buffer a fresh builder produces for the tree v. */
  function Encode(v: Value, forceDefaults: bool, dedup: bool): (r: Option<Buffer>)
    requires Wf(v)
  {
    var (st, root) :- Write(Empty(forceDefaults, dedup), v);
    Some(Finish(st, root).data)
  }

  /** Every object sits at a multiple of 4, and every stored scalar at a
      multiple of its own size, counted from the start of the buffer. */
  ghost predicate AlignedField(b: Buffer, p: int, f: Field)
    decreases f, 0
  {
    var o := FieldOffset(b, p, f.id);
    && o.Some?
    && match f
       case Scalar(_, w, _, _) => o.value != 0 ==> Mult(p + o.value, w)
       case Ref(id, t) =>
         && Mult(p + o.value, 4)
         && GetPointer(b, p, id).Some? && GetPointer(b, p, id).value.Some?
         && AlignedTree(b, GetPointer(b, p, id).value.value, t)
  }

  ghost predicate AlignedElem(b: Buffer, q: Option<int>, e: Value)
    decreases e, 1
  {
    q.Some? && AlignedTree(b, q.value, e)
  }

  ghost predicate AlignedTree(b: Buffer, p: int, v: Value)
    decreases v, 0
  {
    && Mult(p, 4)
    && match v
       case Str(_) => true
       case Vec(es) => forall i :: 0 <= i < |es| ==> AlignedElem(b, VecGet(b, p, i), es[i])
       case Table(fs) => forall i :: 0 <= i < |fs| ==> AlignedField(b, p, fs[i])
  }

  lemma FlipMult(n: nat, p: int, w: nat, a: nat)
    requires IsAlign(w) && IsAlign(a) && w <= a && Mult(n, a) && Mult(n - p, w)
    ensures Mult(p, w)
  {
    MultDown(n, w, a);
    MultDiff(n, p, w);
  }

  lemma MultDown(n: nat, w: nat, a: nat)
    requires IsAlign(w) && IsAlign(a) && w <= a && Mult(n, a)
    ensures Mult(n, w)
  {
    var k := a / w;
    assert a == w * k;
    DivMod(n, a);
    assert n == w * (k * (n / a)) by { MulAssoc3(w, k, n / a); }
    ModUnique(n, w, k * (n / a), 0);
  }

  lemma MulAssoc3(a: nat, b: nat, c: int)
    ensures (a * b) * c == a * (b * c)
  {
  }

  lemma MultDiff(n: nat, p: int, w: nat)
    requires IsAlign(w) && Mult(n, w) && Mult(n - p, w)
    ensures Mult(p, w)
  {
    var q, r := n / w, (n - p) / w;
    DivMod(n, w);
    DivMod(n - p, w);
    Distribute(w, q, r);
    ModUnique(p, w, q - r, 0);
  }

  lemma Distribute(w: nat, q: int, r: int)
    ensures w * (q - r) == w * q - w * r
  {
  }

  lemma {:induction false} HoldsAligned(b: Buffer, p: int, v: Value, a: Layout)
    requires Wf(v) && Holds(b, p, v, a) && IsAlign(a.align) && Mult(|b|, a.align)
    ensures AlignedTree(b, p, v)
    decreases v
  {
    FlipMult(|b|, p, 4, a.align);
    match v
    case Str(_) =>
    case Vec(es) =>
      forall i | 0 <= i < |es|
        ensures AlignedElem(b, VecGet(b, p, i), es[i])
      {
        assert ElemHolds(b, VecGet(b, p, i), es[i], a);
        HoldsAligned(b, VecGet(b, p, i).value, es[i], a);
      }
    case Table(fs) =>
      forall i | 0 <= i < |fs|
        ensures AlignedField(b, p, fs[i])
      {
        FieldAligned(b, p, fs[i], a);
      }
  }

  lemma {:induction false} FieldAligned(b: Buffer, p: int, f: Field, a: Layout)
    requires WfField(f) && FieldHolds(b, p, f, a) && IsAlign(a.align) && 4 <= a.align && Mult(|b|, a.align)
    ensures AlignedField(b, p, f)
    decreases f
  {
    var o := FieldOffset(b, p, f.id).value;
    match f
    case Scalar(_, w, _, _) =>
      if o != 0 {
        FlipMult(|b|, p + o, w, a.align);
      }
    case Ref(id, t) =>
      FlipMult(|b|, p + o, 4, a.align);
      HoldsAligned(b, GetPointer(b, p, id).value.value, t, a);
  }

  lemma EmptyInv(forceDefaults: bool, dedup: bool)
    ensures Inv(Empty(forceDefaults, dedup))
  {
  }

  /** The round trip of the wire engine: for every tree, with or without vtable
      sharing, the finished buffer's root reads back as exactly that tree, the
      buffer's size is a multiple of the largest alignment used, every scalar is
      aligned from the start, and defaults are stored exactly if they are forced. */
  lemma EncodeRoundTrip(v: Value, forceDefaults: bool, dedup: bool)
    requires Wf(v) && Encode(v, forceDefaults, dedup).Some?
    requires |Encode(v, forceDefaults, dedup).value| <= MAX_BUFFER_SIZE
    ensures var b := Encode(v, forceDefaults, dedup).value;
      exists a: Layout :: a.force == forceDefaults && IsAlign(a.align) && Mult(|b|, a.align) && Root(b).Some? && Root(b).value > 0
        && Holds(b, Root(b).value, v, a) && AlignedTree(b, Root(b).value, v)
  {
    hide Extends, Holds, AlignedTree, Finish, Mult, Root, Wf, Write;
    var st0 := Empty(forceDefaults, dedup);
    EmptyInv(forceDefaults, dedup);
    var (st, root) := Write(st0, v).value;
    var b := Encode(v, forceDefaults, dedup).value;
    WriteAligned(st0, v);
    FinishFacts(st, root);
    ExtendsSize(Cleared(st), Finish(st, root));
    WriteHolds(st0, v);
    FinishRoot(st, root);
    ClearedHolds(st, root, v);
    HoldsAtGrow(Cleared(st), Finish(st, root), root, v);
    HoldsAligned(b, |b| - root, v, LayoutOf(st));
  }

  lemma ClearedHolds(st: Fbb, o: nat, v: Value)
    requires HoldsAt(st, o, v)
    ensures HoldsAt(Cleared(st), o, v)
  {
    hide Holds;
  }

  lemma WriteAligned(st: Fbb, v: Value)
    requires Inv(st) && Wf(v) && Write(st, v).Some?
    ensures IsAlign(Write(st, v).value.0.minalign) && 4 <= Write(st, v).value.0.minalign
    ensures Write(st, v).value.0.forceDefaults == st.forceDefaults
  {
    ExtendsLayout(st, Write(st, v).value.0);
    hide EndTable, AddFields, CreateString, CreateVector, Extends;
    match v
    case Str(s) => CreateStringFacts(st, s);
    case Vec(es) =>
      var (st1, offs) := WriteAll(st, es).value;
      CreateVectorFacts(st1, offs);
    case Table(fs) =>
      var (st1, offs) := WriteRefs(st, fs).value;
      WriteTableFacts(st, st1, fs, offs);
      EndTableFacts(AddFields(st1, fs, offs), |st1.data|);
  }
}

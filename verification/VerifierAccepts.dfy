/** The other half of verification: every message that the builder can produce
    for the schema passes its own Verify, with exact counters. */
module VerifierAccepts {
  import opened Bytes
  import opened Reader
  import opened WireValue
  import opened FinishedBuffer
  import opened MessageVerifier

  // ---------------------------------------------------------------------
  // Trees of the schema

  function FieldVal(fs: seq<Field>, id: nat): Option<Field> {
    if fs == [] then None else if fs[0].id == id then Some(fs[0]) else FieldVal(fs[1..], id)
  }

  /** The union tag that the accessor returns. */
  function TagOf(fs: seq<Field>, tag: nat): nat {
    var x := FieldVal(fs, tag);
    if x.Some? && x.value.Scalar? then x.value.value else 0
  }

  predicate TagOk(fs: seq<Field>, tag: nat) {
    IsFieldId(tag) && (FieldVal(fs, tag).Some? ==> FieldVal(fs, tag).value == Scalar(tag, 1, TagOf(fs, tag), 0))
  }

  /** A field, if present, has the type that the schema gives it. */
  predicate ConformsField(fs: seq<Field>, f: FieldSpec, rank: nat)
    requires KindBelow(f.kind, rank)
    decreases rank, 0
  {
    var x := FieldVal(fs, f.id);
    match f.kind
    case Int(w) => x.Some? ==> x.value.Scalar? && x.value.width == w
    case Text => x.Some? ==> x.value.Ref? && x.value.target.Str?
    case Tables(e) =>
      x.Some? ==>
        && x.value.Ref? && x.value.target.Vec?
        && forall i :: 0 <= i < |x.value.target.elems| ==> Conforms(e, x.value.target.elems[i])
    case Any(tag) =>
      && TagOk(fs, tag)
      && (x.Some? ==>
            && x.value.Ref?
            && var t := UnionType(TagOf(fs, tag));
               t.Some? ==> Rank(t.value) < rank && Conforms(t.value, x.value.target))
  }

  /** A tree that the generated Create functions can make. */
  predicate Conforms(t: TableType, v: Value)
    decreases Rank(t), 1
  {
    SchemaBelow(t);
    v.Table? && forall i :: 0 <= i < |Schema(t)| ==> ConformsField(v.fields, Schema(t)[i], Rank(t))
  }

  // ---------------------------------------------------------------------
  // How many tables the verifier will count

  function FieldTables(fs: seq<Field>, f: FieldSpec, rank: nat): nat
    requires KindBelow(f.kind, rank)
    decreases rank, 0, 0
  {
    var x := FieldVal(fs, f.id);
    match f.kind
    case Tables(e) =>
      if x.Some? && x.value.Ref? && x.value.target.Vec? then ElemTables(e, x.value.target.elems, 0) else 0
    case Any(tag) =>
      var t := UnionType(TagOf(fs, tag));
      if x.Some? && x.value.Ref? && t.Some? && Rank(t.value) < rank then TableCount(t.value, x.value.target) else 0
    case _ => 0
  }

  function ElemTables(e: TableType, es: seq<Value>, i: nat): nat
    decreases Rank(e), 3, |es| - i
  {
    if i >= |es| then 0 else TableCount(e, es[i]) + ElemTables(e, es, i + 1)
  }

  function FieldsTables(fs: seq<Field>, specs: seq<FieldSpec>, rank: nat): nat
    requires AllBelow(specs, rank)
    decreases rank, 1, |specs|
  {
    if specs == [] then 0 else FieldTables(fs, specs[0], rank) + FieldsTables(fs, specs[1..], rank)
  }

  function TableCount(t: TableType, v: Value): nat
    decreases Rank(t), 2, 0
  {
    SchemaBelow(t);
    if v.Table? then 1 + FieldsTables(v.fields, Schema(t), Rank(t)) else 0
  }

  // ---------------------------------------------------------------------
  // What the checks need

  /** A finished buffer: a multiple of four bytes, within the limit. */
  predicate Ready(b: Buffer) { Mult(|b|, 4) && |b| < MAX_BUFFER_SIZE }

  lemma AlignedPasses(cfg: Config, e: nat, w: nat)
    requires (w == 2 || w == 4) && Mult(e, w)
    ensures AlignOk(cfg, e, w)
  {
    assert Pow2(1) == 2 && Pow2(2) == 4;
    AndLowMask(e, 1);
    AndLowMask(e, 2);
  }

  lemma ScalarPasses(b: Buffer, cfg: Config, e: nat, w: nat)
    requires (w == 2 || w == 4) && Mult(e, w) && w < |b| && e + w <= |b|
    ensures ScalarOk(b, cfg, e, w)
  {
    AlignedPasses(cfg, e, w);
  }

  lemma StartPasses(b: Buffer, cfg: Config, c: Counters, p: nat)
    requires Ready(b) && VtableInside(b, p) && Mult(p, 4) && p > 0
    requires c.depth < cfg.maxDepth && c.tables < cfg.maxTables
    ensures CheckTableStart(b, cfg, c, p) == Pass(Counters(c.depth + 1, c.tables + 1))
  {
    hide And, Rd;
    var vt := VTable(b, p).value;
    var size := Rd(b, vt, 2).value;
    ScalarPasses(b, cfg, p, 4);
    ModUnique(vt, TWO64, 0, vt);
    EvenFromEnd(|b|, vt);
    ScalarPasses(b, cfg, vt, 2);
    AlignedPasses(cfg, size, 2);
  }

  lemma EvenFromEnd(n: nat, vt: nat)
    requires Mult(n, 4) && Mult(n - vt, 2)
    ensures Mult(vt, 2)
  {
  }

  lemma {:induction false} FieldValIn(fs: seq<Field>, id: nat)
    ensures FieldVal(fs, id).Some? <==> HasField(fs, id)
    ensures FieldVal(fs, id).Some? ==>
      FieldVal(fs, id).value.id == id && exists i :: 0 <= i < |fs| && fs[i] == FieldVal(fs, id).value
  {
    if fs != [] {
      FieldValIn(fs[1..], id);
      if FieldVal(fs[1..], id).Some? {
        var i :| 0 <= i < |fs[1..]| && fs[1..][i] == FieldVal(fs[1..], id).value;
        assert fs[i + 1] == fs[1..][i];
      }
      if HasField(fs, id) && fs[0].id != id {
        var i :| 0 <= i < |fs| && fs[i].id == id;
        assert fs[1..][i - 1].id == id;
      }
    }
  }

  /** Reading a field of a table that holds a tree: the field, or nothing. */
  lemma FieldFound(b: Buffer, p: int, fs: seq<Field>, id: nat, a: Layout)
    requires Holds(b, p, Table(fs), a) && AlignedTree(b, p, Table(fs)) && IsFieldId(id)
    ensures var x := FieldVal(fs, id);
      if x.Some? then x.value.id == id && FieldHolds(b, p, x.value, a) && AlignedField(b, p, x.value)
      else FieldOffset(b, p, id) == Some(0)
  {
    hide FieldHolds, AlignedField, FieldOffset;
    FieldValIn(fs, id);
    var x := FieldVal(fs, id);
    if x.Some? {
      var i :| 0 <= i < |fs| && fs[i] == x.value;
      assert FieldHolds(b, p, fs[i], a) && AlignedField(b, p, fs[i]);
    }
  }

  /** The offset of a reference passes, and leads to the target. */
  lemma OffsetPasses(b: Buffer, cfg: Config, p: nat, id: nat, t: Value, a: Layout)
    requires Ready(b) && FieldHolds(b, p, Ref(id, t), a) && AlignedField(b, p, Ref(id, t))
    ensures var o := FieldOffset(b, p, id).value;
      var q := GetPointer(b, p, id).value.value;
      && FieldOffset(b, p, id).Some? && o > 0 && CheckOffset(b, cfg, p + o).Some? && CheckOffset(b, cfg, p + o).value != 0
      && q > 0 && Holds(b, q, t, a) && AlignedTree(b, q, t)
  {
    hide And, FieldOffset, Holds, AlignedTree;
    var o := FieldOffset(b, p, id).value;
    var q := GetPointer(b, p, id).value.value;
    HoldsRoom(b, q, t, a);
    ScalarPasses(b, cfg, p + o, 4);
  }

  lemma HoldsRoom(b: Buffer, q: int, t: Value, a: Layout)
    requires Holds(b, q, t, a)
    ensures 0 <= q && q + 4 <= |b|
  {
    hide FieldHolds;
  }

  lemma TextPasses(b: Buffer, cfg: Config, q: nat, s: seq<Byte>, a: Layout)
    requires Ready(b) && q > 0 && Holds(b, q, Str(s), a) && Mult(q, 4)
    ensures CheckString(b, cfg, q) == Some(true)
  {
    hide And, De;
    ScalarPasses(b, cfg, q, 4);
  }

  lemma VectorPasses(b: Buffer, cfg: Config, q: nat, es: seq<Value>, a: Layout)
    requires Ready(b) && q > 0 && Holds(b, q, Vec(es), a) && Mult(q, 4)
    ensures CheckVector(b, cfg, q, 4) == Some(true) && VecSize(b, q) == Some(|es|)
  {
    hide And, De, Holds;
    HoldsRoom(b, q, Vec(es), a);
    VectorRoom(b, q, es, a);
    ScalarPasses(b, cfg, q, 4);
  }

  lemma VectorRoom(b: Buffer, q: int, es: seq<Value>, a: Layout)
    requires Holds(b, q, Vec(es), a)
    ensures VecSize(b, q) == Some(|es|) && q + 4 + 4 * |es| <= |b|
  {
    hide De;
    if es != [] { assert ElemHolds(b, VecGet(b, q, |es| - 1), es[|es| - 1], a); }
  }

  lemma TagReads(b: Buffer, p: int, fs: seq<Field>, tag: nat, a: Layout)
    requires Holds(b, p, Table(fs), a) && AlignedTree(b, p, Table(fs)) && TagOk(fs, tag)
    ensures GetField(b, p, tag, 1, 0) == Some(TagOf(fs, tag))
  {
    hide Holds, AlignedTree, FieldOffset;
    FieldFound(b, p, fs, tag, a);
  }

  lemma AbsentPointer(b: Buffer, p: int, id: nat)
    requires FieldOffset(b, p, id) == Some(0)
    ensures GetPointer(b, p, id) == Some(None)
  {
  }

  // ---------------------------------------------------------------------
  // Acceptance

  predicate Room(cfg: Config, c: Counters, rank: nat, tables: nat) {
    c.depth + rank <= cfg.maxDepth && c.tables + tables <= cfg.maxTables
  }

  function Plus(c: Counters, tables: nat): Counters { c.(tables := c.tables + tables) }

  lemma IntAccepted(b: Buffer, cfg: Config, c: Counters, p: nat, fs: seq<Field>, f: FieldSpec, rank: nat, a: Layout)
    requires Ready(b) && p > 0 && Holds(b, p, Table(fs), a) && AlignedTree(b, p, Table(fs)) && IsFieldId(f.id)
    requires f.kind.Int? && ConformsField(fs, f, rank)
    ensures CheckField(b, cfg, c, p, f, rank) == Pass(c)
  {
    hide Holds, AlignedTree, FieldOffset;
    FieldFound(b, p, fs, f.id, a);
  }

  lemma TextAccepted(b: Buffer, cfg: Config, c: Counters, p: nat, fs: seq<Field>, f: FieldSpec, rank: nat, a: Layout)
    requires Ready(b) && p > 0 && Holds(b, p, Table(fs), a) && AlignedTree(b, p, Table(fs)) && IsFieldId(f.id)
    requires f.kind.Text? && ConformsField(fs, f, rank)
    ensures CheckField(b, cfg, c, p, f, rank) == Pass(c)
  {
    hide Holds, FieldOffset, FieldHolds, AlignedField, CheckOffset, CheckString, GetPointer;
    FieldFound(b, p, fs, f.id, a);
    var x := FieldVal(fs, f.id);
    if x.Some? {
      OffsetPasses(b, cfg, p, f.id, x.value.target, a);
      PointerFound(b, p, f.id, x.value.target, a);
      TextPasses(b, cfg, GetPointer(b, p, f.id).value.value, x.value.target.bytes, a);
    }
  }

  lemma PointerFound(b: Buffer, p: int, id: nat, t: Value, a: Layout)
    requires FieldHolds(b, p, Ref(id, t), a)
    ensures GetPointer(b, p, id).Some? && GetPointer(b, p, id).value.Some?
  {
    hide GetPointer, Holds;
  }

  lemma {:induction false} TablesAccepted(b: Buffer, cfg: Config, c: Counters, p: nat, fs: seq<Field>, f: FieldSpec, rank: nat, a: Layout)
    requires Ready(b) && p > 0 && Holds(b, p, Table(fs), a) && AlignedTree(b, p, Table(fs)) && IsFieldId(f.id)
    requires f.kind.Tables? && KindBelow(f.kind, rank) && ConformsField(fs, f, rank)
    requires Room(cfg, c, rank, FieldTables(fs, f, rank))
    ensures CheckField(b, cfg, c, p, f, rank) == Pass(Plus(c, FieldTables(fs, f, rank)))
    decreases rank, 0, 0
  {
    hide Holds, FieldOffset, FieldHolds, AlignedField, CheckOffset, CheckVector, GetPointer, CheckElems, VecSize, ElemTables;
    FieldFound(b, p, fs, f.id, a);
    var x := FieldVal(fs, f.id);
    if x.Some? {
      var e, es := f.kind.elem, x.value.target.elems;
      OffsetPasses(b, cfg, p, f.id, x.value.target, a);
      PointerFound(b, p, f.id, x.value.target, a);
      var q := GetPointer(b, p, f.id).value.value;
      VectorPasses(b, cfg, q, es, a);
      ElemsAccepted(b, cfg, c, q, 0, es, e, a);
    }
  }

  lemma {:induction false} ElemsAccepted(b: Buffer, cfg: Config, c: Counters, q: nat, i: nat, es: seq<Value>, e: TableType, a: Layout)
    requires Ready(b) && q > 0 && Holds(b, q, Vec(es), a) && AlignedTree(b, q, Vec(es)) && i <= |es|
    requires forall j :: 0 <= j < |es| ==> Conforms(e, es[j])
    requires Room(cfg, c, Rank(e) + 1, ElemTables(e, es, i))
    ensures CheckElems(b, cfg, c, q, i, |es|, e) == Pass(Plus(c, ElemTables(e, es, i)))
    decreases Rank(e), 3, |es| - i
  {
    hide VecSize, CheckTable, TableCount, Conforms, VecGet, Rank;
    if i < |es| {
      assert ElemHolds(b, VecGet(b, q, i), es[i], a) && AlignedElem(b, VecGet(b, q, i), es[i]);
      ElemPlace(b, q, i);
      TableAccepted(b, cfg, c, VecGet(b, q, i).value, e, es[i], a);
      ElemsAccepted(b, cfg, Plus(c, TableCount(e, es[i])), q, i + 1, es, e, a);
    }
  }

  lemma ElemPlace(b: Buffer, q: nat, i: nat)
    requires VecGet(b, q, i).Some?
    ensures VecGet(b, q, i).value > 0
  {
  }

  lemma {:induction false} AnyAccepted(b: Buffer, cfg: Config, c: Counters, p: nat, fs: seq<Field>, f: FieldSpec, rank: nat, a: Layout)
    requires Ready(b) && p > 0 && Holds(b, p, Table(fs), a) && AlignedTree(b, p, Table(fs)) && IsFieldId(f.id)
    requires f.kind.Any? && KindBelow(f.kind, rank) && ConformsField(fs, f, rank)
    requires Room(cfg, c, rank, FieldTables(fs, f, rank))
    ensures CheckField(b, cfg, c, p, f, rank) == Pass(Plus(c, FieldTables(fs, f, rank)))
    decreases rank, 0, 0
  {
    hide Holds, FieldOffset, FieldHolds, AlignedField, CheckOffset, GetPointer, GetField, CheckTable, TableCount, TagOf, TagOk, UnionType;
    FieldFound(b, p, fs, f.id, a);
    TagReads(b, p, fs, f.kind.tag, a);
    UnionRank(TagOf(fs, f.kind.tag));
    var x, t := FieldVal(fs, f.id), UnionType(TagOf(fs, f.kind.tag));
    if x.Some? {
      OffsetPasses(b, cfg, p, f.id, x.value.target, a);
      PointerFound(b, p, f.id, x.value.target, a);
      if t.Some? { TableAccepted(b, cfg, c, GetPointer(b, p, f.id).value.value, t.value, x.value.target, a); }
    } else {
      AbsentPointer(b, p, f.id);
    }
  }

  lemma {:induction false} FieldAccepted(b: Buffer, cfg: Config, c: Counters, p: nat, fs: seq<Field>, f: FieldSpec, rank: nat, a: Layout)
    requires Ready(b) && p > 0 && Holds(b, p, Table(fs), a) && AlignedTree(b, p, Table(fs)) && IsFieldId(f.id)
    requires KindBelow(f.kind, rank) && ConformsField(fs, f, rank)
    requires Room(cfg, c, rank, FieldTables(fs, f, rank))
    ensures CheckField(b, cfg, c, p, f, rank) == Pass(Plus(c, FieldTables(fs, f, rank)))
    decreases rank, 0, 1
  {
    hide Holds, CheckField, AlignedTree, ConformsField, TagOk;
    match f.kind
    case Int(_) => IntAccepted(b, cfg, c, p, fs, f, rank, a);
    case Text => TextAccepted(b, cfg, c, p, fs, f, rank, a);
    case Tables(_) => TablesAccepted(b, cfg, c, p, fs, f, rank, a);
    case Any(_) => AnyAccepted(b, cfg, c, p, fs, f, rank, a);
  }

  /** Field types and tags of a run of the schema. */
  predicate SpecsOk(fs: seq<Field>, specs: seq<FieldSpec>, rank: nat)
    requires AllBelow(specs, rank)
  {
    forall i :: 0 <= i < |specs| ==>
      IsFieldId(specs[i].id) && ConformsField(fs, specs[i], rank)
  }

  lemma {:induction false} FieldsAccepted(b: Buffer, cfg: Config, c: Counters, p: nat, fs: seq<Field>, specs: seq<FieldSpec>, rank: nat, a: Layout)
    requires Ready(b) && p > 0 && Holds(b, p, Table(fs), a) && AlignedTree(b, p, Table(fs))
    requires AllBelow(specs, rank) && SpecsOk(fs, specs, rank) && Room(cfg, c, rank, FieldsTables(fs, specs, rank))
    ensures CheckFields(b, cfg, c, p, specs, rank) == Pass(Plus(c, FieldsTables(fs, specs, rank)))
    decreases rank, 1, |specs|
  {
    hide Holds, CheckField, AlignedTree, ConformsField, TagOk, FieldTables, KindBelow;
    if specs != [] {
      FieldAccepted(b, cfg, c, p, fs, specs[0], rank, a);
      FieldsAccepted(b, cfg, Plus(c, FieldTables(fs, specs[0], rank)), p, fs, specs[1..], rank, a);
    }
  }

  lemma SpecsFromSchema(t: TableType, fs: seq<Field>)
    requires AllBelow(Schema(t), Rank(t)) && Conforms(t, Table(fs))
    ensures SpecsOk(fs, Schema(t), Rank(t))
  {
    hide ConformsField, Schema;
    forall i | 0 <= i < |Schema(t)| ensures IsFieldId(Schema(t)[i].id) { SchemaIds(t, i); }
  }

  lemma SchemaIds(t: TableType, i: nat)
    requires i < |Schema(t)|
    ensures IsFieldId(Schema(t)[i].id)
  {
  }

  /** A table of the tree passes its generated Verify, and the verifier has
      counted exactly the tables below it. */
  lemma {:induction false} TableAccepted(b: Buffer, cfg: Config, c: Counters, p: nat, t: TableType, v: Value, a: Layout)
    requires Ready(b) && p > 0 && Holds(b, p, v, a) && AlignedTree(b, p, v) && Conforms(t, v)
    requires Room(cfg, c, Rank(t) + 1, TableCount(t, v))
    ensures CheckTable(b, cfg, c, p, t) == Pass(Plus(c, TableCount(t, v)))
    decreases Rank(t), 2, 0
  {
    hide CheckTableStart, CheckFields, Schema, FieldsTables, FieldHolds, AlignedField, SpecsOk, ConformsField, VtableInside;
    SchemaBelow(t);
    SpecsFromSchema(t, v.fields);
    StartPasses(b, cfg, c, p);
    FieldsAccepted(b, cfg, Counters(c.depth + 1, c.tables + 1), p, v.fields, Schema(t), Rank(t), a);
  }

  /** Every root message of the schema that fits the limits passes
      VerifyRootMsgBuffer once it has been built. */
  lemma BuiltMessagesPass(v: Value, forceDefaults: bool, dedup: bool, cfg: Config)
    requires Wf(v) && Conforms(RootMsg, v)
    requires Encode(v, forceDefaults, dedup).Some? && |Encode(v, forceDefaults, dedup).value| < MAX_BUFFER_SIZE
    requires cfg.maxDepth >= 3 && TableCount(RootMsg, v) <= cfg.maxTables
    ensures CheckBuffer(Encode(v, forceDefaults, dedup).value, cfg) == Pass(Counters(0, TableCount(RootMsg, v)))
  {
    hide Encode, Holds, AlignedTree, Wf, Conforms, TableCount, CheckTable;
    var b := Encode(v, forceDefaults, dedup).value;
    EncodeRoundTrip(v, forceDefaults, dedup);
    var a: Layout :| IsAlign(a.align) && Mult(|b|, a.align) && Root(b).Some? && Root(b).value > 0
      && Holds(b, Root(b).value, v, a) && AlignedTree(b, Root(b).value, v);
    HoldsAlign(b, Root(b).value, v, a);
    RootPlace(b, v, a, cfg);
    TableAccepted(b, cfg, Counters(0, 0), Root(b).value, RootMsg, v, a);
  }

  lemma HoldsAlign(b: Buffer, p: int, v: Value, a: Layout)
    requires Holds(b, p, v, a)
    ensures 4 <= a.align
  {
  }

  lemma RootPlace(b: Buffer, v: Value, a: Layout, cfg: Config)
    requires IsAlign(a.align) && Mult(|b|, a.align) && |b| < MAX_BUFFER_SIZE
    requires Root(b).Some? && Root(b).value > 0 && Holds(b, Root(b).value, v, a) && 4 <= a.align
    ensures Ready(b) && CheckOffset(b, cfg, 0) == Some(Root(b).value)
  {
    hide Holds, De;
    HoldsRoom(b, Root(b).value, v, a);
    MultDown(|b|, 4, a.align);
    ScalarPasses(b, cfg, 0, 4);
  }
}

/** Exactly which buffers the verifier accepts: those whose tables, strings and
    vectors are all in place and aligned, said without counters or early exits,
    and whose number and nesting of tables are within the limits. */
module VerifierExact {
  import opened Bytes
  import opened Reader
  import opened MessageVerifier

  // ---------------------------------------------------------------------
  // Well-formed buffers

  predicate Inside(b: Buffer, x: int, len: nat) { 0 <= x && len < |b| && x + len <= |b| }

  predicate Aligned(b: Buffer, x: int, w: nat) { Inside(b, x, w) && Mult(x, w) }

  /** An offset that leads forward into the buffer. */
  predicate OffsetValid(b: Buffer, x: int) {
    Aligned(b, x, 4) && var o := Rd(b, x, 4).value; 0 < o < TWO31 && x + o < |b|
  }

  predicate VectorValid(b: Buffer, q: int, elemSize: nat)
    requires elemSize >= 1
  {
    Aligned(b, q, 4) && var n := Rd(b, q, 4).value; n < MAX_BUFFER_SIZE / elemSize && Inside(b, q, 4 + elemSize * n)
  }

  predicate TextValid(b: Buffer, q: int) {
    VectorValid(b, q, 1) && var end := q + 4 + Rd(b, q, 4).value; Inside(b, end, 1) && Rd(b, end, 1) == Some(0)
  }

  /** The table's offset to its vtable, and the vtable. */
  predicate StartValid(b: Buffer, p: int) {
    && Aligned(b, p, 4)
    && var vt := p - FromU32(Rd(b, p, 4).value);
       && Aligned(b, vt, 2)
       && var size := Rd(b, vt, 2).value; size % 2 == 0 && Inside(b, vt, size)
  }

  /** The field, if present, and all that it leads to. */
  ghost predicate FieldValid(b: Buffer, p: int, f: FieldSpec, rank: nat)
    requires KindBelow(f.kind, rank)
    decreases rank, 0
  {
    var o := FieldOffset(b, p, f.id);
    && o.Some?
    && (o.value != 0 ==>
          match f.kind
          case Int(w) => Inside(b, p + o.value, w)
          case Text => OffsetValid(b, p + o.value) && TextValid(b, Target(b, p + o.value))
          case Tables(e) =>
            && OffsetValid(b, p + o.value) && VectorValid(b, Target(b, p + o.value), 4)
            && ElemsValid(b, Target(b, p + o.value), e)
          case Any(tag) =>
            && OffsetValid(b, p + o.value)
            && var t := TagType(b, p, tag);
               t.Some? ==> Rank(t.value) < rank && TableValid(b, Target(b, p + o.value), t.value))
  }

  /** Where the offset at x leads. */
  function Target(b: Buffer, x: int): int { if Rd(b, x, 4).Some? then x + Rd(b, x, 4).value else 0 }

  /** The type that a union's tag names, if any. */
  function TagType(b: Buffer, p: int, tag: nat): Option<TableType> {
    var v :- GetField(b, p, tag, 1, 0);
    UnionType(v)
  }

  ghost predicate ElemsValid(b: Buffer, q: int, e: TableType)
    decreases Rank(e), 2
  {
    VecSize(b, q).Some? && forall i :: 0 <= i < VecSize(b, q).value ==> ElemValid(b, VecGet(b, q, i), e)
  }

  ghost predicate ElemValid(b: Buffer, at: Option<int>, e: TableType)
    decreases Rank(e), 1, 1
  {
    at.Some? && TableValid(b, at.value, e)
  }

  ghost predicate TableValid(b: Buffer, p: int, t: TableType)
    decreases Rank(t), 1, 0
  {
    && StartValid(b, p) && AllBelow(Schema(t), Rank(t))
    && forall i :: 0 <= i < |Schema(t)| ==> FieldValid(b, p, Schema(t)[i], Rank(t))
  }

  // ---------------------------------------------------------------------
  // How many tables, and how deep

  datatype Extent = Extent(tables: nat, depth: nat)

  const NOTHING := Extent(0, 0)

  function Both(x: Extent, y: Extent): Extent { Extent(x.tables + y.tables, Max(x.depth, y.depth)) }

  function FieldExtent(b: Buffer, p: int, f: FieldSpec, rank: nat): Extent
    requires KindBelow(f.kind, rank)
    decreases rank, 0, 1
  {
    var o := FieldOffset(b, p, f.id);
    if o.None? || o.value == 0 then NOTHING else
    match f.kind
    case Tables(e) =>
      var n := VecSize(b, Target(b, p + o.value));
      if n.None? then NOTHING else ElemsExtent(b, Target(b, p + o.value), 0, n.value, e)
    case Any(tag) =>
      var t := TagType(b, p, tag);
      if t.None? || Rank(t.value) >= rank then NOTHING else TableExtent(b, Target(b, p + o.value), t.value)
    case _ => NOTHING
  }

  function ElemsExtent(b: Buffer, q: int, i: nat, n: nat, e: TableType): Extent
    requires i <= n
    decreases Rank(e), 2, n - i
  {
    if i == n then NOTHING else
    var at := VecGet(b, q, i);
    Both(if at.None? then NOTHING else TableExtent(b, at.value, e), ElemsExtent(b, q, i + 1, n, e))
  }

  function FieldsExtent(b: Buffer, p: int, fs: seq<FieldSpec>, rank: nat): Extent
    requires AllBelow(fs, rank)
    decreases rank, 1, |fs|
  {
    if fs == [] then NOTHING else Both(FieldExtent(b, p, fs[0], rank), FieldsExtent(b, p, fs[1..], rank))
  }

  function TableExtent(b: Buffer, p: int, t: TableType): Extent
    decreases Rank(t), 2, 0
  {
    SchemaBelow(t);
    var x := FieldsExtent(b, p, Schema(t), Rank(t));
    Extent(x.tables + 1, x.depth + 1)
  }

  /** The outcome for something valid or not, of the given extent. */
  function Verdict(cfg: Config, c: Counters, valid: bool, x: Extent): Outcome {
    if valid && (x.tables > 0 ==> c.depth + x.depth <= cfg.maxDepth && c.tables + x.tables <= cfg.maxTables)
    then Pass(Counters(c.depth, c.tables + x.tables)) else Reject
  }

  /** There is depth exactly if there are tables. */
  predicate Sound(x: Extent) { x.tables > 0 <==> x.depth > 0 }

  lemma Sequence(cfg: Config, c: Counters, v: bool, x: Extent, w: bool, y: Extent)
    requires Sound(x) && Sound(y)
    ensures Sound(Both(x, y))
    ensures Verdict(cfg, c, v && w, Both(x, y)) ==
      match Verdict(cfg, c, v, x)
      case Pass(c') => Verdict(cfg, c', w, y)
      case r => r
  {
  }

  // ---------------------------------------------------------------------
  // The checks are exact

  lemma AlignExact(cfg: Config, elem: nat, w: nat)
    requires cfg.checkAlignment && (w == 2 || w == 4)
    ensures AlignOk(cfg, elem, w) <==> elem % w == 0
  {
    assert Pow2(1) == 2 && Pow2(2) == 4;
    AndLowMask(elem, if w == 2 then 1 else 2);
  }

  lemma ScalarExact(b: Buffer, cfg: Config, x: nat, w: nat)
    requires cfg.checkAlignment && (w == 2 || w == 4)
    ensures ScalarOk(b, cfg, x, w) <==> Aligned(b, x, w)
  {
    hide AlignOk;
    AlignExact(cfg, x, w);
  }

  lemma OffsetExact(b: Buffer, cfg: Config, x: nat)
    requires cfg.checkAlignment
    ensures CheckOffset(b, cfg, x) == Some(if OffsetValid(b, x) then Rd(b, x, 4).value else 0)
  {
    hide ScalarOk, Aligned;
    ScalarExact(b, cfg, x, 4);
    if Aligned(b, x, 4) { AlignedInside(b, x, 4); }
  }

  lemma AlignedInside(b: Buffer, x: int, w: nat)
    requires Aligned(b, x, w)
    ensures Inside(b, x, w) && Rd(b, x, w).Some?
  {
  }

  lemma VectorExact(b: Buffer, cfg: Config, q: nat, elemSize: nat)
    requires cfg.checkAlignment && elemSize >= 1
    ensures CheckVector(b, cfg, q, elemSize) == Some(VectorValid(b, q, elemSize))
  {
    hide ScalarOk;
    ScalarExact(b, cfg, q, 4);
  }

  lemma TextExact(b: Buffer, cfg: Config, q: nat)
    requires cfg.checkAlignment
    ensures CheckString(b, cfg, q) == Some(TextValid(b, q))
  {
    hide CheckVector, VectorValid;
    VectorExact(b, cfg, q, 1);
    if VectorValid(b, q, 1) { VectorSize(b, q); }
  }

  lemma VectorSize(b: Buffer, q: int)
    requires VectorValid(b, q, 1)
    ensures 0 <= q && Rd(b, q, 4).Some?
  {
  }

  /** A vtable address that wraps around is not inside. */
  lemma WrapExact(b: Buffer, cfg: Config, p: nat, u: nat)
    requires |b| < MAX_BUFFER_SIZE && p < |b| && u < TWO32 && cfg.checkAlignment
    ensures var vt := (p - FromU32(u)) % TWO64;
      ScalarOk(b, cfg, vt, 2) <==> Aligned(b, p - FromU32(u), 2)
    ensures Aligned(b, p - FromU32(u), 2) ==> (p - FromU32(u)) % TWO64 == p - FromU32(u)
  {
    var x := p - FromU32(u);
    ScalarExact(b, cfg, x % TWO64, 2);
    hide ScalarOk;
    if x >= 0 { ModUnique(x, TWO64, 0, x); } else { ModUnique(x, TWO64, -1, x + TWO64); }
  }

  predicate Room(cfg: Config, c: Counters) { c.depth + 1 <= cfg.maxDepth && c.tables + 1 <= cfg.maxTables }

  lemma StartExact(b: Buffer, cfg: Config, c: Counters, p: nat)
    requires |b| < MAX_BUFFER_SIZE && cfg.checkAlignment
    ensures CheckTableStart(b, cfg, c, p) ==
      if StartValid(b, p) && Room(cfg, c) then Pass(Counters(c.depth + 1, c.tables + 1)) else Reject
  {
    hide ScalarOk, AlignOk;
    ScalarExact(b, cfg, p, 4);
    if Aligned(b, p, 4) {
      RdBound(b, p, 4);
      Widths();
      var u := Rd(b, p, 4).value;
      WrapExact(b, cfg, p, u);
      var vt := (p - FromU32(u)) % TWO64;
      if Aligned(b, vt, 2) { AlignExact(cfg, Rd(b, vt, 2).value, 2); }
    }
  }

  // ---------------------------------------------------------------------
  // Fields, vectors and tables

  lemma PointerTarget(b: Buffer, p: nat, id: nat, o: nat)
    requires FieldOffset(b, p, id) == Some(o) && o != 0 && OffsetValid(b, p + o)
    ensures GetPointer(b, p, id) == Some(Some(Target(b, p + o))) && Target(b, p + o) >= 0
  {
    hide FieldOffset;
  }

  lemma IntExact(b: Buffer, cfg: Config, c: Counters, p: nat, f: FieldSpec, rank: nat)
    requires Lookups(b, p) && f.kind.Int? && f.id % 2 == 0
    ensures CheckField(b, cfg, c, p, f, rank) == Verdict(cfg, c, FieldValid(b, p, f, rank), FieldExtent(b, p, f, rank))
  {
    hide FieldOffset;
  }

  lemma TextFieldExact(b: Buffer, cfg: Config, c: Counters, p: nat, f: FieldSpec, rank: nat)
    requires cfg.checkAlignment && Lookups(b, p) && f.kind.Text? && f.id % 2 == 0
    ensures CheckField(b, cfg, c, p, f, rank) == Verdict(cfg, c, FieldValid(b, p, f, rank), FieldExtent(b, p, f, rank))
  {
    var o := FieldOffset(b, p, f.id).value;
    OffsetExact(b, cfg, p + o);
    if o != 0 && OffsetValid(b, p + o) {
      PointerTarget(b, p, f.id, o);
      TextExact(b, cfg, Target(b, p + o));
    }
    hide FieldOffset, CheckOffset, GetPointer, CheckString, TextValid, Target;
  }

  lemma {:induction false} ElemsSound(b: Buffer, q: int, i: nat, n: nat, e: TableType)
    requires i <= n
    ensures Sound(ElemsExtent(b, q, i, n, e))
    decreases n - i
  {
    if i < n { ElemsSound(b, q, i + 1, n, e); }
  }

  lemma FieldSound(b: Buffer, p: int, f: FieldSpec, rank: nat)
    requires KindBelow(f.kind, rank)
    ensures Sound(FieldExtent(b, p, f, rank))
  {
    hide FieldOffset, ElemsExtent, Target, TagType;
    var o := FieldOffset(b, p, f.id);
    if f.kind.Tables? && o.Some? {
      var n := VecSize(b, Target(b, p + o.value));
      if n.Some? { ElemsSound(b, Target(b, p + o.value), 0, n.value, f.kind.elem); }
    }
  }

  lemma {:induction false} FieldsSound(b: Buffer, p: int, fs: seq<FieldSpec>, rank: nat)
    requires AllBelow(fs, rank)
    ensures Sound(FieldsExtent(b, p, fs, rank))
    decreases |fs|
  {
    hide FieldExtent;
    if fs != [] {
      FieldSound(b, p, fs[0], rank);
      FieldsSound(b, p, fs[1..], rank);
    }
  }

  /** An absent field, or one whose offset leads nowhere. */
  lemma AbsentExact(b: Buffer, cfg: Config, c: Counters, p: nat, f: FieldSpec, rank: nat, o: nat)
    requires (f.kind.Tables? || f.kind.Any?) && KindBelow(f.kind, rank) && FieldOffset(b, p, f.id) == Some(o)
    requires o == 0 || (!OffsetValid(b, p + o) && CheckOffset(b, cfg, p + o) == Some(0))
    requires f.kind.Any? ==> GetField(b, p, f.kind.tag, 1, 0).Some?
    ensures CheckField(b, cfg, c, p, f, rank) == Verdict(cfg, c, FieldValid(b, p, f, rank), FieldExtent(b, p, f, rank))
  {
    if o == 0 { NullPointer(b, p, f.id); }
    hide FieldOffset, CheckOffset, GetPointer, GetField, Target, ElemsValid, ElemsExtent, TableValid, TableExtent, TagType, OffsetValid;
  }

  lemma NullPointer(b: Buffer, p: int, id: nat)
    requires FieldOffset(b, p, id) == Some(0)
    ensures GetPointer(b, p, id) == Some(None)
  {
  }

  lemma VectorRoom(b: Buffer, q: int)
    requires VectorValid(b, q, 4)
    ensures q >= 0 && VecSize(b, q).Some? && q + 4 + 4 * VecSize(b, q).value <= |b|
  {
  }

  /** The elements from i on. */
  ghost predicate ElemsFrom(b: Buffer, q: int, i: nat, n: nat, e: TableType) {
    forall k :: i <= k < n ==> ElemValid(b, VecGet(b, q, k), e)
  }

  lemma ElemsFromStart(b: Buffer, q: int, e: TableType)
    requires VecSize(b, q).Some?
    ensures ElemsFrom(b, q, 0, VecSize(b, q).value, e) <==> ElemsValid(b, q, e)
  {
    hide ElemValid, VecGet, VecSize;
  }

  lemma TablesPresent(b: Buffer, cfg: Config, c: Counters, p: nat, f: FieldSpec, rank: nat, o: nat, q: nat)
    requires f.kind.Tables? && KindBelow(f.kind, rank) && FieldOffset(b, p, f.id) == Some(o) && o != 0
    requires OffsetValid(b, p + o) && CheckOffset(b, cfg, p + o).Some? && CheckOffset(b, cfg, p + o).value != 0
    requires GetPointer(b, p, f.id) == Some(Some(q)) && q == Target(b, p + o)
    requires CheckVector(b, cfg, q, 4) == Some(VectorValid(b, q, 4))
    requires VectorValid(b, q, 4) ==>
      && VecSize(b, q).Some?
      && CheckElems(b, cfg, c, q, 0, VecSize(b, q).value, f.kind.elem)
         == Verdict(cfg, c, ElemsValid(b, q, f.kind.elem), ElemsExtent(b, q, 0, VecSize(b, q).value, f.kind.elem))
    ensures CheckField(b, cfg, c, p, f, rank) == Verdict(cfg, c, FieldValid(b, p, f, rank), FieldExtent(b, p, f, rank))
  {
    hide FieldOffset, CheckOffset, GetPointer, CheckVector, VectorValid, Target, ElemsValid, ElemsExtent, CheckElems, VecSize, OffsetValid;
  }

  lemma {:induction false} TablesFieldExact(b: Buffer, cfg: Config, c: Counters, p: nat, f: FieldSpec, rank: nat)
    requires |b| < MAX_BUFFER_SIZE && cfg.checkAlignment
    requires Lookups(b, p) && f.kind.Tables? && KindBelow(f.kind, rank) && f.id % 2 == 0
    ensures CheckField(b, cfg, c, p, f, rank) == Verdict(cfg, c, FieldValid(b, p, f, rank), FieldExtent(b, p, f, rank))
    decreases rank, 0, 0
  {
    hide CheckField, FieldValid, FieldExtent, CheckVector, VectorValid, ElemsValid, ElemsExtent, CheckElems, VecSize;
    var o := FieldOffset(b, p, f.id).value;
    OffsetExact(b, cfg, p + o);
    if o != 0 && OffsetValid(b, p + o) {
      PointerTarget(b, p, f.id, o);
      var q := Target(b, p + o);
      hide FieldOffset, CheckOffset, GetPointer, OffsetValid, Target;
      VectorExact(b, cfg, q, 4);
      if VectorValid(b, q, 4) {
        VectorRoom(b, q);
        ElemsExact(b, cfg, c, q, 0, VecSize(b, q).value, f.kind.elem);
        ElemsFromStart(b, q, f.kind.elem);
      }
      TablesPresent(b, cfg, c, p, f, rank, o, q);
    } else {
      hide FieldOffset, CheckOffset, OffsetValid;
      AbsentExact(b, cfg, c, p, f, rank, o);
    }
  }

  lemma {:induction false} ElemsExact(b: Buffer, cfg: Config, c: Counters, q: nat, i: nat, n: nat, e: TableType)
    requires |b| < MAX_BUFFER_SIZE && cfg.checkAlignment && i <= n && q + 4 + 4 * n <= |b|
    ensures CheckElems(b, cfg, c, q, i, n, e) == Verdict(cfg, c, ElemsFrom(b, q, i, n, e), ElemsExtent(b, q, i, n, e))
    decreases Rank(e), 2, n - i
  {
    hide CheckTable, TableValid, TableExtent, VecGet;
    if i < n {
      ElemSafe(b, q, i, n);
      var t := VecGet(b, q, i).value;
      TableExact(b, cfg, c, t, e);
      ElemsSound(b, q, i + 1, n, e);
      TableSound(b, t, e);
      Sequence(cfg, c, TableValid(b, t, e), TableExtent(b, t, e), ElemsFrom(b, q, i + 1, n, e), ElemsExtent(b, q, i + 1, n, e));
      FromNext(b, q, i, n, e);
      var r := CheckTable(b, cfg, c, t, e);
      if r.Pass? { ElemsExact(b, cfg, r.counters, q, i + 1, n, e); }
    }
  }

  lemma TableSound(b: Buffer, p: int, t: TableType)
    ensures Sound(TableExtent(b, p, t))
  {
  }

  lemma FromNext(b: Buffer, q: int, i: nat, n: nat, e: TableType)
    requires i < n
    ensures ElemsFrom(b, q, i, n, e) <==> ElemValid(b, VecGet(b, q, i), e) && ElemsFrom(b, q, i + 1, n, e)
  {
    hide ElemValid, VecGet;
  }

  lemma AnyPresent(b: Buffer, cfg: Config, c: Counters, p: nat, f: FieldSpec, rank: nat, o: nat, q: nat, tag: nat)
    requires f.kind.Any? && KindBelow(f.kind, rank) && FieldOffset(b, p, f.id) == Some(o) && o != 0
    requires OffsetValid(b, p + o) && CheckOffset(b, cfg, p + o).Some? && CheckOffset(b, cfg, p + o).value != 0
    requires GetPointer(b, p, f.id) == Some(Some(q)) && q == Target(b, p + o)
    requires GetField(b, p, f.kind.tag, 1, 0) == Some(tag)
    requires UnionType(tag).Some? ==>
      && Rank(UnionType(tag).value) == 1
      && CheckTable(b, cfg, c, q, UnionType(tag).value)
         == Verdict(cfg, c, TableValid(b, q, UnionType(tag).value), TableExtent(b, q, UnionType(tag).value))
    ensures CheckField(b, cfg, c, p, f, rank) == Verdict(cfg, c, FieldValid(b, p, f, rank), FieldExtent(b, p, f, rank))
  {
    hide FieldOffset, CheckOffset, GetPointer, GetField, Target, TableValid, TableExtent, CheckTable, UnionType, OffsetValid, Rank;
    assert TagType(b, p, f.kind.tag) == UnionType(tag);
  }

  lemma {:induction false} AnyExact(b: Buffer, cfg: Config, c: Counters, p: nat, f: FieldSpec, rank: nat)
    requires |b| < MAX_BUFFER_SIZE && cfg.checkAlignment
    requires Lookups(b, p) && f.kind.Any? && KindBelow(f.kind, rank) && f.id % 2 == 0
    requires GetField(b, p, f.kind.tag, 1, 0).Some?
    ensures CheckField(b, cfg, c, p, f, rank) == Verdict(cfg, c, FieldValid(b, p, f, rank), FieldExtent(b, p, f, rank))
    decreases rank, 0, 0
  {
    hide CheckField, FieldValid, FieldExtent, TableValid, TableExtent, CheckTable, UnionType, Rank;
    var o := FieldOffset(b, p, f.id).value;
    var tag := GetField(b, p, f.kind.tag, 1, 0).value;
    OffsetExact(b, cfg, p + o);
    if o != 0 && OffsetValid(b, p + o) {
      PointerTarget(b, p, f.id, o);
      var q := Target(b, p + o);
      hide FieldOffset, CheckOffset, GetPointer, GetField, OffsetValid, Target;
      UnionRank(tag);
      if UnionType(tag).Some? { TableExact(b, cfg, c, q, UnionType(tag).value); }
      AnyPresent(b, cfg, c, p, f, rank, o, q, tag);
    } else {
      hide FieldOffset, CheckOffset, GetField, OffsetValid;
      AbsentExact(b, cfg, c, p, f, rank, o);
    }
  }

  lemma {:induction false} FieldExact(b: Buffer, cfg: Config, c: Counters, p: nat, f: FieldSpec, rank: nat)
    requires |b| < MAX_BUFFER_SIZE && cfg.checkAlignment
    requires Lookups(b, p) && KindBelow(f.kind, rank) && f.id % 2 == 0
    requires f.kind.Any? ==> GetField(b, p, f.kind.tag, 1, 0).Some?
    ensures CheckField(b, cfg, c, p, f, rank) == Verdict(cfg, c, FieldValid(b, p, f, rank), FieldExtent(b, p, f, rank))
    decreases rank, 0, 1
  {
    hide CheckField, FieldValid, FieldExtent, FieldOffset, GetField;
    match f.kind
    case Int(_) => IntExact(b, cfg, c, p, f, rank);
    case Text => TextFieldExact(b, cfg, c, p, f, rank);
    case Tables(_) => TablesFieldExact(b, cfg, c, p, f, rank);
    case Any(_) => AnyExact(b, cfg, c, p, f, rank);
  }

  ghost predicate FieldsValid(b: Buffer, p: int, fs: seq<FieldSpec>, rank: nat)
    requires AllBelow(fs, rank)
  {
    forall i :: 0 <= i < |fs| ==> FieldValid(b, p, fs[i], rank)
  }

  lemma {:induction false} FieldsExact(b: Buffer, cfg: Config, c: Counters, p: nat, fs: seq<FieldSpec>, rank: nat)
    requires |b| < MAX_BUFFER_SIZE && cfg.checkAlignment
    requires Lookups(b, p) && AllBelow(fs, rank) && TagsReady(b, p, fs)
    ensures CheckFields(b, cfg, c, p, fs, rank) == Verdict(cfg, c, FieldsValid(b, p, fs, rank), FieldsExtent(b, p, fs, rank))
    decreases rank, 1, |fs|
  {
    hide CheckField, FieldValid, FieldExtent, SafeField, Lookups, GetField;
    if fs != [] {
      FirstTag(b, p, fs);
      FieldExact(b, cfg, c, p, fs[0], rank);
      FieldSafe(b, cfg, c, p, fs[0], rank);
      FieldSound(b, p, fs[0], rank);
      FieldsSound(b, p, fs[1..], rank);
      Sequence(cfg, c, FieldValid(b, p, fs[0], rank), FieldExtent(b, p, fs[0], rank),
        FieldsValid(b, p, fs[1..], rank), FieldsExtent(b, p, fs[1..], rank));
      FieldsNext(b, p, fs, rank);
      var r := CheckField(b, cfg, c, p, fs[0], rank);
      if r.Pass? {
        TagsReadyTail(b, p, fs, rank);
        FieldsExact(b, cfg, r.counters, p, fs[1..], rank);
      }
    }
  }

  lemma FirstTag(b: Buffer, p: int, fs: seq<FieldSpec>)
    requires fs != [] && TagsReady(b, p, fs)
    ensures fs[0].kind.Any? ==> GetField(b, p, fs[0].kind.tag, 1, 0).Some?
  {
    assert fs[..0] == [];
  }

  lemma FieldsNext(b: Buffer, p: int, fs: seq<FieldSpec>, rank: nat)
    requires fs != [] && AllBelow(fs, rank)
    ensures FieldsValid(b, p, fs, rank) <==> FieldValid(b, p, fs[0], rank) && FieldsValid(b, p, fs[1..], rank)
  {
    hide FieldValid;
    forall i | 0 < i < |fs| && FieldsValid(b, p, fs[1..], rank) ensures FieldValid(b, p, fs[i], rank) {
      assert fs[i] == fs[1..][i - 1];
    }
  }

  /** A generated Verify accepts exactly the valid tables within the limits, and
      counts exactly the tables it leads to. */
  lemma {:induction false} TableExact(b: Buffer, cfg: Config, c: Counters, p: nat, t: TableType)
    requires |b| < MAX_BUFFER_SIZE && cfg.checkAlignment
    ensures CheckTable(b, cfg, c, p, t) == Verdict(cfg, c, TableValid(b, p, t), TableExtent(b, p, t))
    decreases Rank(t), 2, 0
  {
    hide CheckTableStart, CheckFields, Schema, FieldsExtent, TagsReady, FieldOffset, StartValid, FieldValid;
    StartExact(b, cfg, c, p);
    SchemaBelow(t);
    FieldsSound(b, p, Schema(t), Rank(t));
    TableStartSafe(b, cfg, c, p);
    var r := CheckTableStart(b, cfg, c, p);
    if r.Pass? {
      SchemaTags(b, p, t);
      FieldsExact(b, cfg, r.counters, p, Schema(t), Rank(t));
    }
  }

  /** VerifyRootMsgBuffer accepts a buffer if and only if its root offset and the
      message it leads to are valid, with no more tables, and no deeper, than the
      limits allow. */
  lemma BufferExact(b: Buffer, cfg: Config)
    requires |b| < MAX_BUFFER_SIZE && cfg.checkAlignment
    ensures CheckBuffer(b, cfg) ==
      Verdict(cfg, Counters(0, 0), OffsetValid(b, 0) && TableValid(b, Target(b, 0), RootMsg), TableExtent(b, Target(b, 0), RootMsg))
  {
    hide CheckTable, TableValid, TableExtent;
    OffsetExact(b, cfg, 0);
    if OffsetValid(b, 0) { TableExact(b, cfg, Counters(0, 0), Target(b, 0), RootMsg); }
  }
}

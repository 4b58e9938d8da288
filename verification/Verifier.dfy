/** flatbuffers::Verifier and the generated Verify functions of the GRIT
    messages (net_generated.h), run on an arbitrary byte buffer. Reads are
    checked: a read outside the buffer is the outcome Fault. */
module MessageVerifier {
  import opened Bytes
  import opened Reader

  // ---------------------------------------------------------------------
  // The message schema

  datatype TableType =
    | GtmMsg | IpAndPort | AppMsg | EsMsg | DataEntry | DbMsg | DbServiceMsg
    | DbtlMsg | DbtmMsg | DbtlAckMsg | LogPlayerMsg | RootMsg

  datatype Kind = Int(width: nat) | Text | Tables(elem: TableType) | Any(tag: nat)

  /** A field's vtable offset and what its accessor returns. */
  datatype FieldSpec = FieldSpec(id: nat, kind: Kind)

  /** The fields in the order the generated Verify visits them. */
  function Schema(t: TableType): seq<FieldSpec> {
    match t
    case GtmMsg => [FieldSpec(4, Int(4)), FieldSpec(6, Int(4)), FieldSpec(8, Int(1)), FieldSpec(10, Text)]
    case IpAndPort => [FieldSpec(4, Text), FieldSpec(6, Int(4))]
    case AppMsg => [FieldSpec(4, Int(4)), FieldSpec(6, Int(4)), FieldSpec(8, Tables(IpAndPort))]
    case EsMsg => [FieldSpec(4, Int(4)), FieldSpec(6, Int(4)), FieldSpec(8, Int(1)), FieldSpec(10, Int(4)),
                   FieldSpec(12, Text), FieldSpec(14, Text), FieldSpec(16, Text)]
    case DataEntry => [FieldSpec(4, Text), FieldSpec(6, Text), FieldSpec(8, Text)]
    case DbMsg => [FieldSpec(4, Int(4)), FieldSpec(6, Tables(DataEntry))]
    case DbServiceMsg => [FieldSpec(4, Int(4)), FieldSpec(6, Int(4)), FieldSpec(8, Int(1)),
                          FieldSpec(10, Tables(DataEntry)), FieldSpec(12, Tables(DataEntry))]
    case DbtlMsg => [FieldSpec(4, Int(4)), FieldSpec(6, Int(4)), FieldSpec(8, Tables(DataEntry))]
    case DbtmMsg => [FieldSpec(4, Int(4)), FieldSpec(6, Int(4)), FieldSpec(8, Int(1)), FieldSpec(10, Int(4))]
    case DbtlAckMsg => [FieldSpec(4, Int(4)), FieldSpec(6, Int(4))]
    case LogPlayerMsg => [FieldSpec(4, Int(4)), FieldSpec(6, Int(4)), FieldSpec(8, Int(4))]
    case RootMsg => [FieldSpec(4, Int(1)), FieldSpec(6, Any(4))]
  }

  /** enum Msg: the table type a union tag stands for. */
  function UnionType(tag: nat): Option<TableType> {
    if tag == 1 then Some(GtmMsg)
    else if tag == 2 then Some(AppMsg)
    else if tag == 3 then Some(DbServiceMsg)
    else if tag == 4 then Some(DbtlMsg)
    else if tag == 5 then Some(DbtlAckMsg)
    else if tag == 6 then Some(EsMsg)
    else if tag == 7 then Some(DbtmMsg)
    else if tag == 8 then Some(DbMsg)
    else if tag == 9 then Some(LogPlayerMsg)
    else None
  }

  /** Tables nest from the root message through a payload to its entries. */
  function Rank(t: TableType): nat {
    match t
    case RootMsg => 2
    case IpAndPort => 0
    case DataEntry => 0
    case _ => 1
  }

  predicate KindBelow(k: Kind, r: nat) {
    match k
    case Tables(e) => Rank(e) < r
    case Any(tag) => r == 2 && tag % 2 == 0
    case _ => true
  }

  predicate AllBelow(fs: seq<FieldSpec>, r: nat) {
    forall i :: 0 <= i < |fs| ==> KindBelow(fs[i].kind, r) && fs[i].id % 2 == 0
  }

  lemma SchemaBelow(t: TableType)
    ensures AllBelow(Schema(t), Rank(t))
  {
  }

  // ---------------------------------------------------------------------
  // The verifier

  datatype Config = Config(maxDepth: nat, maxTables: nat, checkAlignment: bool)

  /** The counters depth_ and num_tables_. */
  datatype Counters = Counters(depth: nat, tables: nat)

  datatype Outcome = Fault | Reject | Pass(counters: Counters)

  /** Verify(elem, elem_len). */
  predicate InRange(b: Buffer, elem: nat, len: nat) {
    len < |b| && elem <= |b| - len
  }

  /** VerifyAlignment<T>: (elem & (sizeof(T) - 1)) == 0 || !check_alignment_. */
  predicate AlignOk(cfg: Config, elem: nat, w: nat)
    requires w >= 1
  {
    And(elem, w - 1) == 0 || !cfg.checkAlignment
  }

  /** Verify<T>(elem). */
  predicate ScalarOk(b: Buffer, cfg: Config, elem: nat, w: nat)
    requires w >= 1
  {
    AlignOk(cfg, elem, w) && InRange(b, elem, w)
  }

  /** VerifyOffset(start): the offset, or 0 for failure. */
  function CheckOffset(b: Buffer, cfg: Config, start: nat): (r: Option<nat>) {
    if !ScalarOk(b, cfg, start, 4) then Some(0) else
    var o :- Rd(b, start, 4);
    if o == 0 || o >= TWO31 || !InRange(b, start + o, 1) then Some(0) else Some(o)
  }

  /** VerifyTableStart: the vtable is found by size_t arithmetic. */
  function CheckTableStart(b: Buffer, cfg: Config, c: Counters, p: nat): (r: Outcome) {
    if !ScalarOk(b, cfg, p, 4) then Reject else
    var u := Rd(b, p, 4);
    if u.None? then Fault else
    var vt := (p - FromU32(u.value)) % TWO64;
    var c' := Counters(c.depth + 1, c.tables + 1);
    if !(c'.depth <= cfg.maxDepth && c'.tables <= cfg.maxTables) then Reject else
    if !ScalarOk(b, cfg, vt, 2) then Reject else
    var size := Rd(b, vt, 2);
    if size.None? then Fault else
    if AlignOk(cfg, size.value, 2) && InRange(b, vt, size.value) then Pass(c') else Reject
  }

  /** VerifyVectorOrString; Some(false) is rejection. */
  function CheckVector(b: Buffer, cfg: Config, q: nat, elemSize: nat): (r: Option<bool>)
    requires elemSize >= 1
  {
    if !ScalarOk(b, cfg, q, 4) then Some(false) else
    var n :- Rd(b, q, 4);
    Some(n < MAX_BUFFER_SIZE / elemSize && InRange(b, q, 4 + elemSize * n))
  }

  /** VerifyString: contents, then a terminating zero byte. */
  function CheckString(b: Buffer, cfg: Config, q: nat): (r: Option<bool>) {
    var ok :- CheckVector(b, cfg, q, 1);
    if !ok then Some(false) else
    var n :- Rd(b, q, 4);
    var end := q + 4 + n;
    if !InRange(b, end, 1) then Some(false) else
    var z :- Rd(b, end, 1);
    Some(z == 0)
  }

  function Judge(r: Option<bool>, c: Counters): Outcome {
    if r.None? then Fault else if r.value then Pass(c) else Reject
  }

  /** One field of the table at p. */
  function CheckField(b: Buffer, cfg: Config, c: Counters, p: nat, f: FieldSpec, rank: nat): (r: Outcome)
    requires KindBelow(f.kind, rank)
    decreases rank, 0, 1
  {
    var o := FieldOffset(b, p, f.id);
    if o.None? then Fault else
    match f.kind
    case Int(w) =>
      // VerifyField<T> checks the range only
      if o.value == 0 || InRange(b, p + o.value, w) then Pass(c) else Reject
    case Text =>
      if o.value == 0 then Pass(c) else
      var rel := CheckOffset(b, cfg, p + o.value);
      if rel.None? then Fault else if rel.value == 0 then Reject else
      var q := GetPointer(b, p, f.id);
      if q.None? then Fault else if q.value.None? then Pass(c) else
      if q.value.value < 0 then Fault else
      Judge(CheckString(b, cfg, q.value.value), c)
    case Tables(e) =>
      if o.value == 0 then Pass(c) else
      var rel := CheckOffset(b, cfg, p + o.value);
      if rel.None? then Fault else if rel.value == 0 then Reject else
      var q := GetPointer(b, p, f.id);
      if q.None? then Fault else if q.value.None? then Pass(c) else
      if q.value.value < 0 then Fault else
      var ok := CheckVector(b, cfg, q.value.value, 4);
      if ok.None? then Fault else if !ok.value then Reject else
      var n := VecSize(b, q.value.value);
      if n.None? then Fault else CheckElems(b, cfg, c, q.value.value, 0, n.value, e)
    case Any(tag) =>
      var rel := if o.value == 0 then Some(1) else CheckOffset(b, cfg, p + o.value);
      if rel.None? then Fault else if rel.value == 0 then Reject else
      var q := GetPointer(b, p, f.id);
      var t := GetField(b, p, tag, 1, 0);
      if q.None? || t.None? then Fault else
      if UnionType(t.value).None? || q.value.None? then Pass(c) else
      if q.value.value < 0 then Fault else
      CheckTable(b, cfg, c, q.value.value, UnionType(t.value).value)
  }

  /** VerifyVectorOfTables from element i on. */
  function CheckElems(b: Buffer, cfg: Config, c: Counters, q: nat, i: nat, n: nat, e: TableType): (r: Outcome)
    requires i <= n
    decreases Rank(e), 2, n - i
  {
    if i == n then Pass(c) else
    var t := VecGet(b, q, i);
    if t.None? || t.value < 0 then Fault else
    var r := CheckTable(b, cfg, c, t.value, e);
    if !r.Pass? then r else CheckElems(b, cfg, r.counters, q, i + 1, n, e)
  }

  function CheckFields(b: Buffer, cfg: Config, c: Counters, p: nat, fs: seq<FieldSpec>, rank: nat): (r: Outcome)
    requires AllBelow(fs, rank)
    decreases rank, 1, |fs|
  {
    if fs == [] then Pass(c) else
    var r := CheckField(b, cfg, c, p, fs[0], rank);
    if !r.Pass? then r else CheckFields(b, cfg, r.counters, p, fs[1..], rank)
  }

  /** A generated Verify: table start, every field, EndTable. */
  function CheckTable(b: Buffer, cfg: Config, c: Counters, p: nat, t: TableType): (r: Outcome)
    decreases Rank(t), 2, 0
  {
    var r := CheckTableStart(b, cfg, c, p);
    if !r.Pass? then r else
    SchemaBelow(t);
    var r' := CheckFields(b, cfg, r.counters, p, Schema(t), Rank(t));
    if !r'.Pass? then r' else
    if r'.counters.depth == 0 then Fault else
    Pass(r'.counters.(depth := r'.counters.depth - 1))
  }

  /** VerifyBuffer<RootMsg>(nullptr) on a fresh verifier. */
  function CheckBuffer(b: Buffer, cfg: Config): (r: Outcome) {
    var o := CheckOffset(b, cfg, 0);
    if o.None? then Fault else if o.value == 0 then Reject else
    CheckTable(b, cfg, Counters(0, 0), o.value, RootMsg)
  }

  // ---------------------------------------------------------------------
  // Safety: what a verified message promises its readers

  /** Every typed accessor of the field reads inside the buffer, and whatever
      it leads to is safe in the same sense. */
  ghost predicate SafeField(b: Buffer, p: int, f: FieldSpec, rank: nat)
    requires KindBelow(f.kind, rank)
    decreases rank, 0
  {
    match f.kind
    case Int(w) => forall d :: GetField(b, p, f.id, w, d).Some?
    case Text =>
      && GetPointer(b, p, f.id).Some?
      && (GetPointer(b, p, f.id).value.Some? ==> SafeText(b, GetPointer(b, p, f.id).value.value))
    case Tables(e) =>
      && GetPointer(b, p, f.id).Some?
      && (GetPointer(b, p, f.id).value.Some? ==>
            var q := GetPointer(b, p, f.id).value.value;
            && VecSize(b, q).Some?
            && forall i :: 0 <= i < VecSize(b, q).value ==> SafeElem(b, VecGet(b, q, i), e))
    case Any(tag) =>
      && GetPointer(b, p, f.id).Some? && GetField(b, p, tag, 1, 0).Some?
      && (var t := UnionType(GetField(b, p, tag, 1, 0).value);
          t.Some? && GetPointer(b, p, f.id).value.Some? ==>
            Rank(t.value) < rank && SafeTable(b, GetPointer(b, p, f.id).value.value, t.value))
  }

  ghost predicate SafeElem(b: Buffer, q: Option<int>, e: TableType)
    decreases Rank(e), 2
  {
    q.Some? && SafeTable(b, q.value, e)
  }

  /** The string's bytes and its terminator. */
  predicate SafeText(b: Buffer, q: int) {
    StrBytes(b, q).Some? && Rd(b, q + 4 + |StrBytes(b, q).value|, 1) == Some(0)
  }

  /** The table of type t at p can be read through its generated accessors. */
  ghost predicate SafeTable(b: Buffer, p: int, t: TableType)
    decreases Rank(t), 1
  {
    && AllBelow(Schema(t), Rank(t))
    && forall i :: 0 <= i < |Schema(t)| ==> SafeField(b, p, Schema(t)[i], Rank(t))
  }

  lemma RdBound(b: Buffer, p: int, w: nat)
    requires Rd(b, p, w).Some?
    ensures Rd(b, p, w).value < Pow256(w)
  {
    LeDe(b[p..p + w]);
  }

  lemma EvenSize(cfg: Config, n: nat)
    requires cfg.checkAlignment && AlignOk(cfg, n, 2)
    ensures n % 2 == 0
  {
    assert Pow2(1) == 2;
    AndLowMask(n, 1);
  }

  /** size_t wrap-around cannot bring the vtable back into the buffer. */
  lemma NoWrap(p: nat, u: nat, n: nat)
    requires p < n < MAX_BUFFER_SIZE && u < TWO32
    requires (p - FromU32(u)) % TWO64 < n
    ensures (p - FromU32(u)) % TWO64 == p - FromU32(u)
  {
    var x := p - FromU32(u);
    if x < 0 {
      ModUnique(x, TWO64, -1, x + TWO64);
      assert false;
    }
    ModUnique(x, TWO64, 0, x);
  }

  /** After a successful table start, looking up any field is safe. The
      even-size check is what keeps the last slot's second byte inside. */
  lemma TableStartSafe(b: Buffer, cfg: Config, c: Counters, p: nat)
    requires |b| < MAX_BUFFER_SIZE && cfg.checkAlignment
    ensures var r := CheckTableStart(b, cfg, c, p);
      && !r.Fault?
      && (r.Pass? ==>
            && p < |b|
            && r.counters == Counters(c.depth + 1, c.tables + 1)
            && r.counters.depth <= cfg.maxDepth && r.counters.tables <= cfg.maxTables
            && forall id: nat :: id % 2 == 0 ==> FieldOffset(b, p, id).Some?)
  {
    if ScalarOk(b, cfg, p, 4) {
      RdBound(b, p, 4);
      Widths();
      var u := Rd(b, p, 4).value;
      var vt := (p - FromU32(u)) % TWO64;
      if CheckTableStart(b, cfg, c, p).Pass? {
        NoWrap(p, u, |b|);
        var size := Rd(b, vt, 2).value;
        EvenSize(cfg, size);
        forall id: nat | id % 2 == 0
          ensures FieldOffset(b, p, id).Some?
        {
          assert VTable(b, p) == Some(vt);
          if id < size {
            assert id + 2 <= size;
          }
        }
      }
    }
  }

  /** Looking up any field of the table at p stays inside the buffer. */
  ghost predicate Lookups(b: Buffer, p: int) {
    forall id: nat :: id % 2 == 0 ==> FieldOffset(b, p, id).Some?
  }

  lemma OffsetSafe(b: Buffer, cfg: Config, start: nat)
    ensures CheckOffset(b, cfg, start).Some?
    ensures CheckOffset(b, cfg, start).value != 0 ==>
      Rd(b, start, 4) == CheckOffset(b, cfg, start) && start + CheckOffset(b, cfg, start).value < |b|
  {
  }

  /** A checked offset field is a null pointer or points into the buffer. */
  lemma PointerSafe(b: Buffer, cfg: Config, p: nat, id: nat)
    requires Lookups(b, p) && id % 2 == 0
    ensures var o := FieldOffset(b, p, id).value;
      if o == 0 then GetPointer(b, p, id) == Some(None)
      else
        && CheckOffset(b, cfg, p + o).Some?
        && (CheckOffset(b, cfg, p + o).value != 0 ==>
              GetPointer(b, p, id).Some? && GetPointer(b, p, id).value.Some? && GetPointer(b, p, id).value.value >= 0)
  {
    OffsetSafe(b, cfg, p + FieldOffset(b, p, id).value);
    hide FieldOffset, CheckOffset;
  }

  lemma VectorSafe(b: Buffer, cfg: Config, q: nat, elemSize: nat)
    requires elemSize >= 1
    ensures CheckVector(b, cfg, q, elemSize).Some?
    ensures CheckVector(b, cfg, q, elemSize).value ==>
      VecSize(b, q).Some? && q + 4 + elemSize * VecSize(b, q).value <= |b|
  {
  }

  lemma StringSafe(b: Buffer, cfg: Config, q: nat)
    ensures CheckString(b, cfg, q).Some?
    ensures CheckString(b, cfg, q).value ==> SafeText(b, q)
  {
    VectorSafe(b, cfg, q, 1);
  }

  lemma ElemSafe(b: Buffer, q: nat, i: nat, n: nat)
    requires q + 4 + 4 * n <= |b| && i < n
    ensures VecGet(b, q, i).Some? && VecGet(b, q, i).value >= 0
  {
  }

  /** The counters after a successful check: depth restored, tables counted. */
  predicate Counted(cfg: Config, c: Counters, c': Counters) {
    c'.depth == c.depth && c.tables <= c'.tables && (c.tables < c'.tables ==> c'.tables <= cfg.maxTables)
  }

  /** What one check promises: no fault, and safety when it passes. */
  ghost predicate FieldGood(b: Buffer, cfg: Config, c: Counters, p: nat, f: FieldSpec, rank: nat, r: Outcome)
    requires KindBelow(f.kind, rank)
  {
    !r.Fault? && (r.Pass? ==> SafeField(b, p, f, rank) && Counted(cfg, c, r.counters))
  }

  lemma {:induction false} FieldSafe(b: Buffer, cfg: Config, c: Counters, p: nat, f: FieldSpec, rank: nat)
    requires |b| < MAX_BUFFER_SIZE && cfg.checkAlignment
    requires Lookups(b, p) && KindBelow(f.kind, rank) && f.id % 2 == 0
    requires f.kind.Any? ==> GetField(b, p, f.kind.tag, 1, 0).Some?
    ensures FieldGood(b, cfg, c, p, f, rank, CheckField(b, cfg, c, p, f, rank))
    decreases rank, 0, 2
  {
    hide CheckField, SafeField, FieldOffset, GetField;
    match f.kind
    case Int(w) => IntSafe(b, cfg, c, p, f, rank);
    case Text => TextSafe(b, cfg, c, p, f, rank);
    case Tables(e) => TablesSafe(b, cfg, c, p, f, rank);
    case Any(tag) => AnySafe(b, cfg, c, p, f, rank);
  }

  lemma IntSafe(b: Buffer, cfg: Config, c: Counters, p: nat, f: FieldSpec, rank: nat)
    requires Lookups(b, p) && f.kind.Int? && f.id % 2 == 0
    ensures FieldGood(b, cfg, c, p, f, rank, CheckField(b, cfg, c, p, f, rank))
  {
    hide FieldOffset;
  }

  lemma TextSafe(b: Buffer, cfg: Config, c: Counters, p: nat, f: FieldSpec, rank: nat)
    requires |b| < MAX_BUFFER_SIZE && Lookups(b, p) && f.kind.Text? && f.id % 2 == 0
    ensures FieldGood(b, cfg, c, p, f, rank, CheckField(b, cfg, c, p, f, rank))
  {
    var o := FieldOffset(b, p, f.id).value;
    PointerSafe(b, cfg, p, f.id);
    hide FieldOffset, CheckOffset, GetPointer, CheckString, SafeText;
    if o != 0 {
      if CheckOffset(b, cfg, p + o).value != 0 {
        StringSafe(b, cfg, GetPointer(b, p, f.id).value.value);
      }
    }
  }

  /** What CheckField does with a vector of tables, by the outcome of each check. */
  lemma TablesChecked(b: Buffer, cfg: Config, c: Counters, p: nat, f: FieldSpec, rank: nat, o: nat, q: nat)
    requires f.kind.Tables? && KindBelow(f.kind, rank) && FieldOffset(b, p, f.id) == Some(o) && o != 0
    requires CheckOffset(b, cfg, p + o).Some? && CheckOffset(b, cfg, p + o).value != 0
    requires GetPointer(b, p, f.id) == Some(Some(q)) && CheckVector(b, cfg, q, 4).Some?
    requires CheckVector(b, cfg, q, 4).value ==> VecSize(b, q).Some?
    ensures CheckField(b, cfg, c, p, f, rank) ==
      if CheckVector(b, cfg, q, 4).value then CheckElems(b, cfg, c, q, 0, VecSize(b, q).value, f.kind.elem) else Reject
  {
    hide FieldOffset, CheckOffset, GetPointer, CheckVector, VecSize, CheckElems, Rank;
  }

  lemma TablesIntro(b: Buffer, p: nat, f: FieldSpec, rank: nat, q: nat)
    requires f.kind.Tables? && KindBelow(f.kind, rank) && GetPointer(b, p, f.id) == Some(Some(q)) && VecSize(b, q).Some?
    requires forall i :: 0 <= i < VecSize(b, q).value ==> SafeElem(b, VecGet(b, q, i), f.kind.elem)
    ensures SafeField(b, p, f, rank)
  {
    hide GetPointer, VecSize, VecGet, SafeElem, Rank;
  }

  lemma {:induction false} TablesSafe(b: Buffer, cfg: Config, c: Counters, p: nat, f: FieldSpec, rank: nat)
    requires |b| < MAX_BUFFER_SIZE && cfg.checkAlignment
    requires Lookups(b, p) && f.kind.Tables? && KindBelow(f.kind, rank) && f.id % 2 == 0
    ensures FieldGood(b, cfg, c, p, f, rank, CheckField(b, cfg, c, p, f, rank))
    decreases rank, 0, 1
  {
    var o := FieldOffset(b, p, f.id).value;
    PointerSafe(b, cfg, p, f.id);
    if o != 0 && CheckOffset(b, cfg, p + o).value != 0 {
      PointedTables(b, cfg, c, p, f, rank, o, GetPointer(b, p, f.id).value.value);
    } else {
      hide FieldOffset, CheckOffset, GetPointer, CheckVector, CheckElems, SafeElem, VecGet, VecSize;
    }
  }

  lemma {:induction false} PointedTables(b: Buffer, cfg: Config, c: Counters, p: nat, f: FieldSpec, rank: nat, o: nat, q: nat)
    requires |b| < MAX_BUFFER_SIZE && cfg.checkAlignment
    requires f.kind.Tables? && KindBelow(f.kind, rank) && FieldOffset(b, p, f.id) == Some(o) && o != 0
    requires CheckOffset(b, cfg, p + o).Some? && CheckOffset(b, cfg, p + o).value != 0
    requires GetPointer(b, p, f.id) == Some(Some(q))
    ensures FieldGood(b, cfg, c, p, f, rank, CheckField(b, cfg, c, p, f, rank))
    decreases rank, 0, 0
  {
    hide FieldOffset, CheckOffset, GetPointer, CheckVector, CheckElems, CheckField, SafeField, SafeElem, VecGet, VecSize;
    VectorSafe(b, cfg, q, 4);
    TablesChecked(b, cfg, c, p, f, rank, o, q);
    if CheckVector(b, cfg, q, 4).value {
      ElemsSafe(b, cfg, c, q, 0, VecSize(b, q).value, f.kind.elem);
      if CheckElems(b, cfg, c, q, 0, VecSize(b, q).value, f.kind.elem).Pass? {
        TablesIntro(b, p, f, rank, q);
      }
    }
  }

  /** What CheckField does with a union member that has a type and a table. */
  lemma AnyChecked(b: Buffer, cfg: Config, c: Counters, p: nat, f: FieldSpec, rank: nat, o: nat, q: nat, tag: nat)
    requires f.kind.Any? && KindBelow(f.kind, rank) && FieldOffset(b, p, f.id) == Some(o) && o != 0
    requires CheckOffset(b, cfg, p + o).Some? && CheckOffset(b, cfg, p + o).value != 0
    requires GetPointer(b, p, f.id) == Some(Some(q)) && GetField(b, p, f.kind.tag, 1, 0) == Some(tag)
    ensures CheckField(b, cfg, c, p, f, rank) ==
      if UnionType(tag).Some? then CheckTable(b, cfg, c, q, UnionType(tag).value) else Pass(c)
  {
    hide FieldOffset, CheckOffset, GetPointer, GetField, UnionType, CheckTable, Rank;
  }

  lemma AnyIntro(b: Buffer, p: nat, f: FieldSpec, rank: nat, q: nat, tag: nat)
    requires f.kind.Any? && KindBelow(f.kind, rank) && GetPointer(b, p, f.id) == Some(Some(q))
    requires GetField(b, p, f.kind.tag, 1, 0) == Some(tag)
    requires UnionType(tag).Some? ==> Rank(UnionType(tag).value) == 1 && SafeTable(b, q, UnionType(tag).value)
    ensures SafeField(b, p, f, rank)
  {
    hide GetPointer, GetField, UnionType, SafeTable, Rank;
  }

  lemma {:induction false} AnySafe(b: Buffer, cfg: Config, c: Counters, p: nat, f: FieldSpec, rank: nat)
    requires |b| < MAX_BUFFER_SIZE && cfg.checkAlignment
    requires Lookups(b, p) && f.kind.Any? && KindBelow(f.kind, rank) && f.id % 2 == 0
    requires GetField(b, p, f.kind.tag, 1, 0).Some?
    ensures FieldGood(b, cfg, c, p, f, rank, CheckField(b, cfg, c, p, f, rank))
    decreases rank, 0, 1
  {
    var o := FieldOffset(b, p, f.id).value;
    PointerSafe(b, cfg, p, f.id);
    hide FieldOffset, CheckOffset, GetPointer, GetField, CheckField, SafeField;
    if o == 0 || CheckOffset(b, cfg, p + o).value == 0 {
      UnpointedAny(b, cfg, c, p, f, rank, o);
    } else {
      PointedAny(b, cfg, c, p, f, rank, o, GetPointer(b, p, f.id).value.value, GetField(b, p, f.kind.tag, 1, 0).value);
    }
  }

  lemma UnpointedAny(b: Buffer, cfg: Config, c: Counters, p: nat, f: FieldSpec, rank: nat, o: nat)
    requires f.kind.Any? && KindBelow(f.kind, rank) && FieldOffset(b, p, f.id) == Some(o)
    requires if o == 0 then GetPointer(b, p, f.id) == Some(None) else CheckOffset(b, cfg, p + o) == Some(0)
    requires GetField(b, p, f.kind.tag, 1, 0).Some?
    ensures FieldGood(b, cfg, c, p, f, rank, CheckField(b, cfg, c, p, f, rank))
  {
    hide FieldOffset, CheckOffset, GetPointer, GetField, UnionType, CheckTable, SafeTable;
  }

  lemma {:induction false} PointedAny(b: Buffer, cfg: Config, c: Counters, p: nat, f: FieldSpec, rank: nat, o: nat, q: nat, tag: nat)
    requires |b| < MAX_BUFFER_SIZE && cfg.checkAlignment
    requires f.kind.Any? && KindBelow(f.kind, rank) && FieldOffset(b, p, f.id) == Some(o) && o != 0
    requires CheckOffset(b, cfg, p + o).Some? && CheckOffset(b, cfg, p + o).value != 0
    requires GetPointer(b, p, f.id) == Some(Some(q)) && GetField(b, p, f.kind.tag, 1, 0) == Some(tag)
    ensures FieldGood(b, cfg, c, p, f, rank, CheckField(b, cfg, c, p, f, rank))
    decreases rank, 0, 0
  {
    hide FieldOffset, CheckOffset, GetPointer, GetField, UnionType, CheckTable, SafeTable, CheckField, SafeField, Rank;
    AnyChecked(b, cfg, c, p, f, rank, o, q, tag);
    UnionRank(tag);
    if UnionType(tag).Some? {
      TableSafe(b, cfg, c, q, UnionType(tag).value);
      if CheckTable(b, cfg, c, q, UnionType(tag).value).Pass? { AnyIntro(b, p, f, rank, q, tag); }
    } else {
      AnyIntro(b, p, f, rank, q, tag);
    }
  }

  lemma UnionRank(tag: nat)
    ensures UnionType(tag).Some? ==> Rank(UnionType(tag).value) == 1
  {
  }

  lemma {:induction false} ElemsSafe(b: Buffer, cfg: Config, c: Counters, q: nat, i: nat, n: nat, e: TableType)
    requires |b| < MAX_BUFFER_SIZE && cfg.checkAlignment
    requires i <= n && q + 4 + 4 * n <= |b|
    ensures var r := CheckElems(b, cfg, c, q, i, n, e);
      && !r.Fault?
      && (r.Pass? ==>
            && Counted(cfg, c, r.counters)
            && forall k :: i <= k < n ==> SafeElem(b, VecGet(b, q, k), e))
    decreases Rank(e), 2, n - i
  {
    hide CheckTable, SafeTable, VecGet;
    if i < n {
      ElemSafe(b, q, i, n);
      var t := VecGet(b, q, i).value;
      TableSafe(b, cfg, c, t, e);
      var r := CheckTable(b, cfg, c, t, e);
      if r.Pass? {
        ElemsSafe(b, cfg, r.counters, q, i + 1, n, e);
      }
    }
  }

  /** The union's tag byte is checked before the union itself. */
  ghost predicate TagsReady(b: Buffer, p: int, fs: seq<FieldSpec>) {
    forall i :: 0 <= i < |fs| && fs[i].kind.Any? ==>
      || GetField(b, p, fs[i].kind.tag, 1, 0).Some?
      || FieldSpec(fs[i].kind.tag, Int(1)) in fs[..i]
  }

  lemma TagsReadyTail(b: Buffer, p: int, fs: seq<FieldSpec>, rank: nat)
    requires fs != [] && TagsReady(b, p, fs) && KindBelow(fs[0].kind, rank) && SafeField(b, p, fs[0], rank)
    ensures TagsReady(b, p, fs[1..])
  {
    forall i | 0 <= i < |fs| - 1 && fs[1..][i].kind.Any?
      ensures GetField(b, p, fs[1..][i].kind.tag, 1, 0).Some?
           || FieldSpec(fs[1..][i].kind.tag, Int(1)) in fs[1..][..i]
    {
      var tag := fs[i + 1].kind.tag;
      if GetField(b, p, tag, 1, 0).None? {
        var j :| 0 <= j < i + 1 && fs[..i + 1][j] == FieldSpec(tag, Int(1));
        assert j != 0;
        assert fs[1..][..i][j - 1] == FieldSpec(tag, Int(1));
      }
    }
  }

  lemma {:induction false} FieldsSafe(b: Buffer, cfg: Config, c: Counters, p: nat, fs: seq<FieldSpec>, rank: nat)
    requires |b| < MAX_BUFFER_SIZE && cfg.checkAlignment
    requires Lookups(b, p) && AllBelow(fs, rank) && TagsReady(b, p, fs)
    ensures var r := CheckFields(b, cfg, c, p, fs, rank);
      && !r.Fault?
      && (r.Pass? ==>
            && Counted(cfg, c, r.counters)
            && forall i :: 0 <= i < |fs| ==> SafeField(b, p, fs[i], rank))
    decreases rank, 1, |fs|
  {
    if fs != [] {
      FieldSafe(b, cfg, c, p, fs[0], rank);
      var r := CheckField(b, cfg, c, p, fs[0], rank);
      if r.Pass? {
        TagsReadyTail(b, p, fs, rank);
        FieldsSafe(b, cfg, r.counters, p, fs[1..], rank);
      }
    }
  }

  lemma SchemaTags(b: Buffer, p: int, t: TableType)
    ensures TagsReady(b, p, Schema(t))
  {
    if t.RootMsg? {
      assert Schema(t)[..1] == [FieldSpec(4, Int(1))];
    }
  }

  /** Soundness of one generated Verify: on an arbitrary buffer it never reads
      outside, and if it returns true every accessor of the table, and of all
      tables, strings and vectors it leads to, reads only bytes of the buffer. */
  lemma {:induction false} TableSafe(b: Buffer, cfg: Config, c: Counters, p: nat, t: TableType)
    requires |b| < MAX_BUFFER_SIZE && cfg.checkAlignment
    ensures var r := CheckTable(b, cfg, c, p, t);
      && !r.Fault?
      && (r.Pass? ==>
            && SafeTable(b, p, t) && r.counters.depth == c.depth
            && c.tables < r.counters.tables <= cfg.maxTables)
    decreases Rank(t), 2, 0
  {
    hide CheckTableStart, CheckFields, Schema, SafeField, TagsReady, FieldOffset;
    TableStartSafe(b, cfg, c, p);
    var r := CheckTableStart(b, cfg, c, p);
    if r.Pass? {
      SchemaBelow(t);
      SchemaTags(b, p, t);
      FieldsSafe(b, cfg, r.counters, p, Schema(t), Rank(t));
    }
  }

  /** Soundness of VerifyRootMsgBuffer: true means every reader of the message
      is safe, starting from GetRootMsg. */
  lemma BufferSafe(b: Buffer, cfg: Config)
    requires |b| < MAX_BUFFER_SIZE && cfg.checkAlignment
    ensures var r := CheckBuffer(b, cfg);
      && !r.Fault?
      && (r.Pass? ==>
            && Root(b).Some? && SafeTable(b, Root(b).value, RootMsg)
            && r.counters.depth == 0 && r.counters.tables <= cfg.maxTables)
  {
    OffsetSafe(b, cfg, 0);
    var o := CheckOffset(b, cfg, 0).value;
    if o != 0 {
      TableSafe(b, cfg, Counters(0, 0), o, RootMsg);
    }
  }

  // ---------------------------------------------------------------------
  // Alignment checking is needed

  /** A table at 4 whose vtable at 8 claims five bytes, the last of the buffer. */
  const ODD_VTABLE: Buffer := [4, 0, 0, 0, 0xFC, 0xFF, 0xFF, 0xFF, 5, 0, 0, 0, 0]

  lemma OddReads()
    ensures Rd(ODD_VTABLE, 0, 4) == Some(4) && Rd(ODD_VTABLE, 4, 4) == Some(0xFFFF_FFFC) && Rd(ODD_VTABLE, 8, 2) == Some(5)
  {
    var b := ODD_VTABLE;
    Quad(b[0..4]);
    Quad(b[4..8]);
    Pair(b[8..10]);
  }

  lemma Quad(s: seq<Byte>)
    requires |s| == 4
    ensures De(s) == s[0] as int + 256 * (s[1] as int) + 0x10000 * (s[2] as int) + 0x1000000 * (s[3] as int)
  {
    assert s[1..][1..] == s[2..];
    Pair(s[2..]);
    assert De(s) == s[0] + 256 * De(s[1..]) && De(s[1..]) == s[1] + 256 * De(s[2..]);
  }

  lemma Pair(s: seq<Byte>)
    requires |s| == 2
    ensures De(s) == s[0] as int + 256 * (s[1] as int)
  {
    assert De(s) == s[0] + 256 * De(s[1..]) && De(s[1..]) == s[1] + 256 * De(s[1..][1..]);
  }

  lemma OddVtableFaults(cfg: Config)
    requires !cfg.checkAlignment && cfg.maxDepth > 0 && cfg.maxTables > 0
    ensures CheckBuffer(ODD_VTABLE, cfg).Fault?
  {
    hide And, Rd, CheckFields, Schema;
    OddReads();
    var b := ODD_VTABLE;
    ModUnique(8, TWO64, 0, 8);
    assert CheckOffset(b, cfg, 0) == Some(4);
    assert CheckTableStart(b, cfg, Counters(0, 0), 4) == Pass(Counters(1, 1));
    OddFieldFaults(cfg);
  }

  lemma OddFieldFaults(cfg: Config)
    ensures AllBelow(Schema(RootMsg), 2) && CheckFields(ODD_VTABLE, cfg, Counters(1, 1), 4, Schema(RootMsg), 2).Fault?
  {
    hide CheckField, CheckFields;
    OddReads();
    SchemaBelow(RootMsg);
    var f := Schema(RootMsg)[0];
    assert FieldOffset(ODD_VTABLE, 4, 4) == None;
    FieldFaults(cfg, f);
    FirstFault(cfg);
  }

  lemma FieldFaults(cfg: Config, f: FieldSpec)
    requires f == FieldSpec(4, Int(1)) && FieldOffset(ODD_VTABLE, 4, 4) == None
    ensures CheckField(ODD_VTABLE, cfg, Counters(1, 1), 4, f, 2).Fault?
  {
    hide FieldOffset;
  }

  lemma FirstFault(cfg: Config)
    requires AllBelow(Schema(RootMsg), 2)
    requires CheckField(ODD_VTABLE, cfg, Counters(1, 1), 4, Schema(RootMsg)[0], 2).Fault?
    ensures CheckFields(ODD_VTABLE, cfg, Counters(1, 1), 4, Schema(RootMsg), 2).Fault?
  {
    hide CheckField;
  }

  /** No buffer makes the verifier itself read outside exactly if alignment is
      checked: without the check an odd vtable size lets a slot straddle the
      end. */
  lemma SafeExactlyWhenAligned(cfg: Config)
    requires cfg.maxDepth > 0 && cfg.maxTables > 0
    ensures (forall b: Buffer :: |b| < MAX_BUFFER_SIZE ==> !CheckBuffer(b, cfg).Fault?) <==> cfg.checkAlignment
  {
    hide CheckBuffer;
    if cfg.checkAlignment {
      forall b: Buffer | |b| < MAX_BUFFER_SIZE ensures !CheckBuffer(b, cfg).Fault? { BufferSafe(b, cfg); }
    } else {
      OddVtableFaults(cfg);
      assert |ODD_VTABLE| < MAX_BUFFER_SIZE;
    }
  }
}

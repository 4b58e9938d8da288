/** The accessors of Table, Vector and String (flatbuffers.h) over a byte
    buffer. A position is an index from the buffer's start. Memory is checked:
    any read that would touch a byte outside the buffer yields None, so
    "the accessor returns Some" means "it read only bytes of the buffer". */
module Reader {
  import opened Bytes

  type Buffer = seq<Byte>

  /** ReadScalar of w bytes at p. */
  function Rd(b: Buffer, p: int, w: nat): (r: Option<nat>)
    ensures r.Some? <==> 0 <= p && p + w <= |b|
  {
    if 0 <= p && p + w <= |b| then Some(De(b[p..p + w])) else None
  }

  /** Table::GetVTable: the signed offset at the table's start leads to it. */
  function VTable(b: Buffer, p: int): (r: Option<int>) {
    var u :- Rd(b, p, 4);
    Some(p - FromU32(u))
  }

  /** Table::GetOptionalFieldOffset: 0 when the field is absent. */
  function FieldOffset(b: Buffer, p: int, field: nat): (r: Option<nat>) {
    var vt :- VTable(b, p);
    var vtsize :- Rd(b, vt, 2);
    if field < vtsize then Rd(b, vt + field, 2) else Some(0)
  }

  /** The table at p has its whole vtable in the buffer, at an even distance
      from the end and of even size. */
  predicate VtableInside(b: Buffer, p: int) {
    var vt := VTable(b, p);
    && vt.Some? && 0 <= vt.value && Mult(|b| - vt.value, 2)
    && var size := Rd(b, vt.value, 2);
       size.Some? && Mult(size.value, 2) && 4 <= size.value < |b| && vt.value + size.value <= |b|
  }

  /** Table::GetField of a w-byte scalar. */
  function GetField(b: Buffer, p: int, field: nat, w: nat, def: nat): (r: Option<nat>) {
    var o :- FieldOffset(b, p, field);
    if o == 0 then Some(def) else Rd(b, p + o, w)
  }

  /** Table::GetPointer; Some(None) is a null pointer. */
  function GetPointer(b: Buffer, p: int, field: nat): (r: Option<Option<int>>) {
    var o :- FieldOffset(b, p, field);
    if o == 0 then Some(None) else
    var u :- Rd(b, p + o, 4);
    Some(Some(p + o + u))
  }

  /** Vector::size. */
  function VecSize(b: Buffer, p: int): (r: Option<nat>) {
    Rd(b, p, 4)
  }

  /** Vector<Offset<T>>::Get: the position element i points to. */
  function VecGet(b: Buffer, p: int, i: nat): (r: Option<int>) {
    var q := p + 4 + 4 * i;
    var u :- Rd(b, q, 4);
    Some(q + u)
  }

  /** String::str. */
  function StrBytes(b: Buffer, p: int): (r: Option<seq<Byte>>) {
    var n :- Rd(b, p, 4);
    if p + 4 + n <= |b| then Some(b[p + 4..p + 4 + n]) else None
  }

  /** GetRoot. */
  function Root(b: Buffer): (r: Option<nat>) {
    Rd(b, 0, 4)
  }

  // ---------------------------------------------------------------------
  // Every read is stable when the buffer grows downwards

  lemma RdGrow(x: Buffer, b: Buffer, p: int, w: nat)
    requires Rd(b, p, w).Some?
    ensures Rd(x + b, |x| + p, w) == Rd(b, p, w)
  {
    assert (x + b)[|x| + p..|x| + p + w] == b[p..p + w];
  }

  lemma FieldOffsetGrow(x: Buffer, b: Buffer, p: int, field: nat)
    requires FieldOffset(b, p, field).Some?
    ensures FieldOffset(x + b, |x| + p, field) == FieldOffset(b, p, field)
  {
    RdGrow(x, b, p, 4);
    var vt := VTable(b, p).value;
    RdGrow(x, b, vt, 2);
    if field < Rd(b, vt, 2).value {
      RdGrow(x, b, vt + field, 2);
    }
  }

  lemma VtableInsideGrow(x: Buffer, b: Buffer, p: int)
    requires VtableInside(b, p)
    ensures VtableInside(x + b, |x| + p)
  {
    RdGrow(x, b, p, 4);
    RdGrow(x, b, VTable(b, p).value, 2);
  }

  lemma GetFieldGrow(x: Buffer, b: Buffer, p: int, field: nat, w: nat, def: nat)
    requires GetField(b, p, field, w, def).Some?
    ensures GetField(x + b, |x| + p, field, w, def) == GetField(b, p, field, w, def)
  {
    FieldOffsetGrow(x, b, p, field);
    var o := FieldOffset(b, p, field).value;
    if o != 0 {
      RdGrow(x, b, p + o, w);
    }
  }

  lemma GetPointerGrow(x: Buffer, b: Buffer, p: int, field: nat)
    requires GetPointer(b, p, field).Some? && GetPointer(b, p, field).value.Some?
    ensures GetPointer(x + b, |x| + p, field)
         == Some(Some(|x| + GetPointer(b, p, field).value.value))
  {
    FieldOffsetGrow(x, b, p, field);
    RdGrow(x, b, p + FieldOffset(b, p, field).value, 4);
  }

  lemma VecGetGrow(x: Buffer, b: Buffer, p: int, i: nat)
    requires VecGet(b, p, i).Some?
    ensures VecGet(x + b, |x| + p, i) == Some(|x| + VecGet(b, p, i).value)
  {
    RdGrow(x, b, p + 4 + 4 * i, 4);
  }

  lemma StrGrow(x: Buffer, b: Buffer, p: int)
    requires StrBytes(b, p).Some?
    ensures StrBytes(x + b, |x| + p) == StrBytes(b, p)
  {
    RdGrow(x, b, p, 4);
    var n := Rd(b, p, 4).value;
    assert (x + b)[|x| + p + 4..|x| + p + 4 + n] == b[p + 4..p + 4 + n];
  }
}

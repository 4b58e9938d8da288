/** FlexBuffers vectors: the builder's CreateVector picks one width for all the
    elements, and every element, the size and the keys read back from it. */
module FlexBuilder {
  import opened Bytes
  import opened FlexWidth

  /** A stack entry: a signed or unsigned scalar kept inline, or the position
      of something already in the buffer. */
  datatype Value =
    | IntV(i: int, typ: nat, width: Width)
    | UIntV(u: nat, typ: nat, width: Width)
    | RefV(at: nat, typ: nat, width: Width)

  /** What the builder's own Add functions put on the stack. */
  predicate Wf(v: Value, bufSize: nat) {
    && v.typ < 64
    && match v
       case IntV(i, _, w) => Int64(i) && WidthI(i) <= w
       case UIntV(u, _, w) => u < TWO64 && WidthU(u) <= w
       case RefV(at, _, _) => at <= bufSize
  }

  /** PackedType of StoredWidth. */
  function Packed(v: Value, parent: Width): Byte
    requires v.typ < 64
  {
    (if v.RefV? then v.width else MaxWidth(v.width, parent)) + 4 * v.typ
  }

  /** The stack entries from an index on, with a step. */
  function Elems(stack: seq<Value>, i: nat, step: nat): seq<Value>
    requires step > 0
    decreases |stack| - i
  {
    if i >= |stack| then [] else [stack[i]] + Elems(stack, i + step, step)
  }

  // ---------------------------------------------------------------------
  // Reading

  function Signed(u: nat, b: Width): int {
    if 2 * u < Cap(b) then u else u - Cap(b)
  }

  function ReadUInt(buf: seq<Byte>, at: nat, b: Width): nat
    requires at + Size(b) <= |buf|
  {
    De(buf[at..at + Size(b)])
  }

  /** ReadInt64, ReadUInt64 and Indirect find the value at this place. */
  predicate Reads(buf: seq<Byte>, at: nat, b: Width, v: Value) {
    && at + Size(b) <= |buf|
    && match v
       case IntV(i, _, _) => Signed(ReadUInt(buf, at, b), b) == i
       case UIntV(u, _, _) => ReadUInt(buf, at, b) == u
       case RefV(target, _, _) => at - ReadUInt(buf, at, b) == target
  }

  /** All of a run of elements, from a place on. */
  predicate ReadsAll(buf: seq<Byte>, at: nat, b: Width, vs: seq<Value>)
    decreases |vs|
  {
    vs == [] || (Reads(buf, at, b, vs[0]) && ReadsAll(buf, at + Size(b), b, vs[1..]))
  }

  lemma ReadsGrow(buf: seq<Byte>, more: seq<Byte>, at: nat, b: Width, v: Value)
    requires Reads(buf, at, b, v)
    ensures Reads(buf + more, at, b, v)
  {
    SliceLeft(buf, more, at, at + Size(b));
  }

  lemma {:induction false} ReadsAllGrow(buf: seq<Byte>, more: seq<Byte>, at: nat, b: Width, vs: seq<Value>)
    requires ReadsAll(buf, at, b, vs)
    ensures ReadsAll(buf + more, at, b, vs)
    decreases |vs|
  {
    if vs != [] {
      ReadsGrow(buf, more, at, b, vs[0]);
      ReadsAllGrow(buf, more, at + Size(b), b, vs[1..]);
    }
  }

  lemma ReadsNone(buf: seq<Byte>, at: nat, b: Width)
    ensures ReadsAll(buf, at, b, [])
  {
  }

  lemma {:induction false} ReadsAllAppend(buf: seq<Byte>, at: nat, b: Width, vs: seq<Value>, v: Value)
    requires ReadsAll(buf, at, b, vs) && Reads(buf, at + |vs| * Size(b), b, v)
    ensures ReadsAll(buf, at, b, vs + [v])
    decreases |vs|
  {
    if vs == [] {
      assert (vs + [v])[1..] == [];
    } else {
      assert (vs + [v])[1..] == vs[1..] + [v];
      assert |vs| * Size(b) == |vs[1..]| * Size(b) + Size(b);
      ReadsAllAppend(buf, at + Size(b), b, vs[1..], v);
    }
  }

  /** Element k is at k times the width. */
  lemma {:induction false} ReadsAllAt(buf: seq<Byte>, at: nat, b: Width, vs: seq<Value>, k: nat)
    requires ReadsAll(buf, at, b, vs) && k < |vs|
    ensures Reads(buf, at + k * Size(b), b, vs[k])
    decreases k
  {
    if k > 0 {
      assert k * Size(b) == (k - 1) * Size(b) + Size(b);
      ReadsAllAt(buf, at + Size(b), b, vs[1..], k - 1);
    }
  }

  // ---------------------------------------------------------------------
  // Writing

  lemma ModSplit(x: nat, m: nat, p: nat)
    requires m >= 1 && p >= 1
    ensures x % (m * p) == m * ((x / m) % p) + x % m
  {
    var h := x / m;
    var q, r := h / p, h % p;
    DivMod(x, m);
    DivMod(h, p);
    assert m * h == m * (p * q) + m * r;
    assert m * (p * q) == (m * p) * q;
    assert m * r + x % m < m * p by { MulMono(m, r + 1, p); assert m * (r + 1) == m * r + m; }
    ModUnique(x, m * p, q, m * r + x % m);
  }

  /** A write keeps the value modulo the width. */
  lemma {:induction false} DeLeMod(v: nat, w: nat)
    ensures De(Le(v, w)) == v % Pow256(w)
    decreases w
  {
    if w > 0 {
      DeLeMod(v / 256, w - 1);
      assert Le(v, w)[1..] == Le(v / 256, w - 1);
      ModSplit(v, 256, Pow256(w - 1));
    }
  }

  lemma SignedBack(i: int, b: Width)
    requires Int64(i) && FitsSigned(i, b)
    ensures Signed((i % TWO64) % Cap(b), b) == i
  {
    var m := TWO64 / Cap(b);
    assert TWO64 == Cap(b) * m;
    if i >= 0 {
      ModUnique(i, TWO64, 0, i);
      ModUnique(i, Cap(b), 0, i);
    } else {
      ModUnique(i, TWO64, -1, i + TWO64);
      assert i + TWO64 == Cap(b) * (m - 1) + (i + Cap(b));
      ModUnique(i + TWO64, Cap(b), m - 1, i + Cap(b));
    }
  }

  /** The element fits position pos of a vector of width b after a buffer of
      n bytes. */
  predicate Fits(v: Value, n: nat, pos: nat, b: Width)
    requires n < TWO64
  {
    match v
    case IntV(i, _, _) => Int64(i) && FitsSigned(i, b)
    case UIntV(u, _, _) => u < Cap(b)
    case RefV(at, _, _) => at <= n && OffsetAt(n, pos, at, b) < Cap(b)
  }

  /** The element needs more than width c at index idx: a scalar by the width it
      was given, an offset by what it would be there. */
  predicate Exceeds(v: Value, n: nat, idx: nat, c: Width)
    requires n < TWO64
  {
    match v
    case IntV(_, _, w) => c < w
    case UIntV(_, _, w) => c < w
    case RefV(at, _, _) => OffsetAt(n, idx, at, c) >= Cap(c)
  }

  /** Where element k of the vector is on the stack. */
  function Index(start: nat, step: nat, k: nat): nat { start + k * step }

  predicate NeededBy(stack: seq<Value>, i: nat, n: nat, keys: Option<Value>, c: Width)
    requires n < TWO64
  {
    i < |stack| && Exceeds(stack[i], n, i + Prefix(keys), c)
  }

  /** Something in the vector needs more than width c: its size, the keys, or one
      of the first m elements. */
  predicate Needed(stack: seq<Value>, start: nat, step: nat, m: nat, n: nat, vecLen: nat, keys: Option<Value>, c: Width)
    requires n < TWO64
  {
    || vecLen >= Cap(c)
    || (keys.Some? && Exceeds(keys.value, n, 0, c))
    || exists k :: 0 <= k < m && NeededBy(stack, Index(start, step, k), n, keys, c)
  }

  lemma NeededMore(stack: seq<Value>, start: nat, step: nat, m: nat, n: nat, vecLen: nat, keys: Option<Value>, c: Width)
    requires n < TWO64 && Needed(stack, start, step, m, n, vecLen, keys, c)
    ensures Needed(stack, start, step, m + 1, n, vecLen, keys, c)
  {
    hide Exceeds, NeededBy, Index;
  }

  lemma NeededNext(stack: seq<Value>, start: nat, step: nat, m: nat, n: nat, vecLen: nat, keys: Option<Value>, c: Width)
    requires n < TWO64 && NeededBy(stack, Index(start, step, m), n, keys, c)
    ensures Needed(stack, start, step, m + 1, n, vecLen, keys, c)
  {
    hide Exceeds, NeededBy, Index;
  }

  /** No narrower width, apart from the forced minimum, would do. */
  ghost predicate Least(stack: seq<Value>, start: nat, step: nat, m: nat, n: nat, vecLen: nat, keys: Option<Value>, forceMin: Width, b: Width)
    requires n < TWO64
  {
    forall c: Width :: forceMin <= c < b ==> Needed(stack, start, step, m, n, vecLen, keys, c)
  }

  lemma LeastNext(
    stack: seq<Value>, start: nat, step: nat, m: nat, i: nat, n: nat, vecLen: nat, keys: Option<Value>, forceMin: Width, b: Width, w: Width, idx: nat)
    requires n < TWO64 && i == Index(start, step, m) < |stack| && idx == i + Prefix(keys)
    requires Least(stack, start, step, m, n, vecLen, keys, forceMin, b)
    requires forall c: Width :: Exceeds(stack[i], n, idx, c) <==> c < w
    ensures Least(stack, start, step, m + 1, n, vecLen, keys, forceMin, MaxWidth(b, w))
  {
    hide Exceeds, Needed, Index;
    var m1 := m + 1;
    forall c: Width | forceMin <= c < MaxWidth(b, w) ensures Needed(stack, start, step, m1, n, vecLen, keys, c) {
      if c < b { NeededMore(stack, start, step, m, n, vecLen, keys, c); }
      else { NeededNext(stack, start, step, m, n, vecLen, keys, c); }
    }
  }

  lemma LeastStart(stack: seq<Value>, start: nat, step: nat, n: nat, vecLen: nat, keys: Option<Value>, forceMin: Width, w: Width, b: Width)
    requires n < TWO64 && vecLen < TWO64
    requires if keys.Some? then (forall c: Width :: Exceeds(keys.value, n, 0, c) <==> c < w) else w == 0
    requires b == MaxWidth(MaxWidth(forceMin, WidthU(vecLen)), w)
    ensures Least(stack, start, step, 0, n, vecLen, keys, forceMin, b)
  {
    hide Exceeds, WidthU, Cap;
    forall c: Width | forceMin <= c < b ensures Needed(stack, start, step, 0, n, vecLen, keys, c) {
      WidthUExact(vecLen, c);
    }
  }

  lemma FitsWider(v: Value, n: nat, idx: nat, b: Width, at: nat, c: Width)
    requires Addressable(n, idx) && Fits(v, n, idx, b) && b <= c && at <= idx
    ensures Fits(v, n, at, c)
  {
    hide OffsetAt;
    if v.RefV? { OffsetFitsWider(n, idx, v.at, b, c, at); }
  }

  /** The bytes WriteAny appends to a buffer of the given size. */
  function Encoded(v: Value, size: nat, b: Width): (s: seq<Byte>)
    requires v.RefV? ==> v.at <= size
    requires v.UIntV? || v.RefV? || Int64(v.i)
    ensures |s| == Size(b)
  {
    match v
    case IntV(i, _, _) => Le(i % TWO64, Size(b))
    case UIntV(u, _, _) => Le(u, Size(b))
    case RefV(at, _, _) => Le(size - at, Size(b))
  }

  lemma WriteReads(buf: seq<Byte>, v: Value, n: nat, pos: nat, b: Width)
    requires n < TWO64 && Fits(v, n, pos, b) && n <= |buf|
    requires v.RefV? ==> |buf| - v.at == OffsetAt(n, pos, v.at, b)
    ensures Reads(buf + Encoded(v, |buf|, b), |buf|, b, v)
  {
    hide OffsetAt, De, Le;
    var s := Encoded(v, |buf|, b);
    assert (buf + s)[|buf|..|buf| + Size(b)] == s;
    CapIsPow(b);
    match v
    case IntV(i, _, _) =>
      DeLeMod(i % TWO64, Size(b));
      SignedBack(i, b);
    case UIntV(u, _, _) => DeLe(u, Size(b));
    case RefV(at, _, _) => DeLe(|buf| - at, Size(b));
  }

  // ---------------------------------------------------------------------
  // The builder

  class Builder {
    var buf: seq<Byte>
    var stack: seq<Value>
    const forceMin: Width

    constructor (forceMin: Width)
      ensures buf == [] && stack == [] && this.forceMin == forceMin
    {
      buf, stack, this.forceMin := [], [], forceMin;
    }

    /** Align: zero bytes up to a multiple of the width. */
    method Align(b: Width)
      requires |buf| < TWO64
      modifies this`buf
      ensures buf == old(buf) + Zeros(PaddingBytes(|old(buf)|, Size(b)))
    {
      buf := buf + Zeros(PaddingBytes(|buf|, Size(b)));
    }

    method Write(v: nat, b: Width)
      modifies this`buf
      ensures buf == old(buf) + Le(v, Size(b))
    {
      buf := buf + Le(v, Size(b));
    }

    /** The source asserts that the relative offset fits. */
    method WriteOffset(at: nat, b: Width)
      requires at <= |buf| && (b == 3 || |buf| - at < Cap(b))
      modifies this`buf
      ensures buf == old(buf) + Le(|old(buf)| - at, Size(b))
    {
      Write(|buf| - at, b);
    }

    /** Elements, from the stack's entries, at the place where each fits. */
    method WriteAny(v: Value, b: Width, ghost n: nat, ghost pos: nat)
      requires n < TWO64 && n <= |buf| && Fits(v, n, pos, b)
      requires v.RefV? ==> |buf| - v.at == OffsetAt(n, pos, v.at, b)
      modifies this`buf
      ensures buf == old(buf) + Encoded(v, |old(buf)|, b) && Reads(buf, |old(buf)|, b, v)
    {
      WriteReads(buf, v, n, pos, b);
      match v
      case IntV(i, _, _) => Write(i % TWO64, b);
      case UIntV(u, _, _) => Write(u, b);
      case RefV(at, _, _) => WriteOffset(at, b);
    }

    /** ElemWidth of a stack entry. */
    method ElemWidth(v: Value, idx: nat) returns (b: Width)
      requires Wf(v, |buf|) && Addressable(|buf|, idx)
      ensures Fits(v, |buf|, idx, b) && forall c: Width :: Exceeds(v, |buf|, idx, c) <==> c < b
    {
      hide WidthU, WidthI, OffsetAt;
      match v
      case IntV(i, _, w) => WidthIExact(i, w); b := w;
      case UIntV(u, _, w) => WidthUExact(u, w); b := w;
      case RefV(at, _, _) =>
        b := OffsetWidth(|buf|, idx, at);
        forall c: Width | b <= c ensures !Exceeds(v, |buf|, idx, c) { OffsetFitsWider(|buf|, idx, at, b, c, idx); }
    }

    /** The first loop of CreateVector: one width for all the elements, the
        size and the keys, and the common type. */
    method PickWidth(start: nat, vecLen: nat, step: nat, typed: bool, keys: Option<Value>) returns (b: Width, typ: nat)
      requires step > 0 && vecLen < TWO64 && AllWf(stack, |buf|) && KeysOk(keys, |buf|) && Addressable(|buf|, |stack| + 3)
      requires typed ==> SameType(Elems(stack, start, step))
      ensures forceMin <= b && vecLen < Cap(b)
      ensures keys.Some? ==> Fits(keys.value, |buf|, 0, b)
      ensures AllFit(Elems(stack, start, step), |buf|, Prefix(keys), b)
      ensures Least(stack, start, step, |Elems(stack, start, step)|, |buf|, vecLen, keys, forceMin, b)
      ensures typ == if typed && Elems(stack, start, step) != [] then Elems(stack, start, step)[0].typ else FBT_KEY
    {
      hide WidthU, Fits, Wf, Cap, Elems, Exceeds, Least;
      b := MaxWidth(forceMin, WidthU(vecLen));
      WidthUExact(vecLen, b);
      var w: Width := 0;
      if keys.Some? {
        w := ElemWidth(keys.value, 0);
        FitsWider(keys.value, |buf|, 0, w, 0, MaxWidth(b, w));
        CapMono(b, MaxWidth(b, w));
        b := MaxWidth(b, w);
      }
      LeastStart(stack, start, step, |buf|, vecLen, keys, forceMin, w, b);
      typ := FBT_KEY;
      ghost var es := Elems(stack, start, step);
      ghost var k := 0;
      var i := start;
      while i < |stack|
        invariant k <= |es| && k <= i && es[k..] == Elems(stack, i, step)
        invariant forceMin <= b && vecLen < Cap(b)
        invariant keys.Some? ==> Fits(keys.value, |buf|, 0, b)
        invariant AllFit(es[..k], |buf|, Prefix(keys), b)
        invariant i == Index(start, step, k) && Least(stack, start, step, k, |buf|, vecLen, keys, forceMin, b)
        invariant (i == start) == (k == 0) && typ == if typed && k > 0 then es[0].typ else FBT_KEY
        decreases |stack| - i
      {
        ElemsNext(stack, i, step, es, k);
        w := ElemWidth(stack[i], i + Prefix(keys));
        var c := MaxWidth(b, w);
        LeastNext(stack, start, step, k, i, |buf|, vecLen, keys, forceMin, b, w, i + Prefix(keys));
        assert (k + 1) * step == k * step + step;
        FitsWider(stack[i], |buf|, i + Prefix(keys), w, k + Prefix(keys), c);
        AllFitWider(es[..k], |buf|, Prefix(keys), b, c);
        AllFitAppend(es[..k], stack[i], |buf|, Prefix(keys), c);
        if keys.Some? { FitsWider(keys.value, |buf|, 0, b, 0, c); }
        CapMono(b, c);
        b := c;
        if typed && i == start { typ := stack[i].typ; }
        k := k + 1;
        i := i + step;
      }
      ElemsEnd(stack, i, step, es, k);
    }

    /** Keys and size, in front of the elements. */
    method WriteHeader(vecLen: nat, fixed: bool, keys: Option<Value>, b: Width, ghost n: nat)
      requires n < TWO64 && vecLen < Cap(b) && |buf| == n + PaddingBytes(n, Size(b)) && KeysOk(keys, n)
      requires keys.Some? ==> Fits(keys.value, n, 0, b)
      modifies this`buf
      ensures old(buf) <= buf && |buf| == |old(buf)| + HeaderLen(fixed, keys) * Size(b)
      ensures HeaderReads(buf, |buf|, vecLen, fixed, keys, b)
    {
      hide PaddingBytes, WidthU, WidthI, De, Le;
      if keys.Some? {
        WriteAny(keys.value, b, n, 0);
        CapAtLeast(b);
        UIntWritten(buf, Size(keys.value.width), b);
        Write(Size(keys.value.width), b);
        ReadsGrow(buf[..|old(buf)| + Size(b)], Le(Size(keys.value.width), Size(b)), |old(buf)|, b, keys.value);
        assert buf == buf[..|old(buf)| + Size(b)] + Le(Size(keys.value.width), Size(b));
      }
      ghost var mid := buf;
      if !fixed {
        UIntWritten(buf, vecLen, b);
        Write(vecLen, b);
        if keys.Some? {
          ReadsGrow(mid, Le(vecLen, Size(b)), |old(buf)|, b, keys.value);
          SliceLeft(mid, Le(vecLen, Size(b)), |old(buf)| + Size(b), |old(buf)| + 2 * Size(b));
        }
      }
    }

    /** The second loop: the elements, each at its place. */
    method WriteElems(start: nat, step: nat, b: Width, ghost n: nat, ghost h: nat, ghost prefix: nat)
      requires step > 0 && Addressable(n, |stack| + prefix) && h <= prefix
      requires |buf| == n + PaddingBytes(n, Size(b)) + h * Size(b)
      requires AllFit(Elems(stack, start, step), n, prefix, b) && |Elems(stack, start, step)| <= |stack|
      modifies this`buf
      ensures old(buf) <= buf && |buf| == |old(buf)| + |Elems(stack, start, step)| * Size(b)
      ensures ReadsAll(buf, |old(buf)|, b, Elems(stack, start, step))
    {
      hide PaddingBytes, Fits, Reads, Encoded, Elems, ReadsAll, Cap;
      assert ReadsAll(buf, |buf|, b, []) by { ReadsNone(buf, |buf|, b); }
      ghost var es := Elems(stack, start, step);
      ghost var k := 0;
      var i := start;
      while i < |stack|
        invariant k <= |es| && es[k..] == Elems(stack, i, step)
        invariant old(buf) <= buf && |buf| == |old(buf)| + k * Size(b)
        invariant ReadsAll(buf, |old(buf)|, b, es[..k])
        decreases |stack| - i
      {
        ElemsNext(stack, i, step, es, k);
        FitsWider(es[k], n, k + prefix, b, k + h, b);
        assert (k + h) * Size(b) == k * Size(b) + h * Size(b);
        ghost var was := buf;
        WriteAny(stack[i], b, n, k + h);
        ReadsAllGrow(was, buf[|was|..], |old(buf)|, b, es[..k]);
        assert buf == was + buf[|was|..];
        ReadsAllAppend(buf, |old(buf)|, b, es[..k], es[k]);
        assert (k + 1) * Size(b) == k * Size(b) + Size(b);
        k := k + 1;
        i := i + step;
      }
      ElemsEnd(stack, i, step, es, k);
    }

    /** The third loop: a packed type for each element. */
    method WriteTypes(start: nat, step: nat, b: Width)
      requires step > 0 && AllTypes(stack)
      modifies this`buf
      ensures AllTypes(Elems(stack, start, step)) && buf == old(buf) + Types(Elems(stack, start, step), b)
    {
      ElemsTypes(stack, start, step);
      ghost var es := Elems(stack, start, step);
      ghost var k := 0;
      var i := start;
      while i < |stack|
        invariant k <= |es| && es[k..] == Elems(stack, i, step)
        invariant buf == old(buf) + Types(es, b)[..k]
        decreases |stack| - i
      {
        ElemsNext(stack, i, step, es, k);
        buf := buf + [Packed(stack[i], b)];
        k := k + 1;
        i := i + step;
      }
      ElemsEnd(stack, i, step, es, k);
    }

    /** Padding, header and elements at a width that all of them fit. */
    method WriteBody(start: nat, vecLen: nat, step: nat, fixed: bool, keys: Option<Value>, b: Width) returns (vloc: nat)
      requires step > 0 && vecLen == |Elems(stack, start, step)| <= |stack| && vecLen < Cap(b)
      requires Addressable(|buf|, |stack| + 3) && KeysOk(keys, |buf|) && (keys.Some? ==> Fits(keys.value, |buf|, 0, b))
      requires AllFit(Elems(stack, start, step), |buf|, Prefix(keys), b)
      modifies this`buf
      ensures old(buf) <= buf && vloc + vecLen * Size(b) == |buf|
      ensures HeaderReads(buf, vloc, vecLen, fixed, keys, b)
      ensures ReadsAll(buf, vloc, b, Elems(stack, start, step))
    {
      hide PaddingBytes, Fits, Wf, ReadsAll, HeaderReads, Elems, Cap, AllFit;
      ghost var n := |buf|;
      Align(b);
      WriteHeader(vecLen, fixed, keys, b, n);
      vloc := |buf|;
      ghost var header := buf;
      WriteElems(start, step, b, n, HeaderLen(fixed, keys), Prefix(keys));
      assert header + buf[|header|..] == buf;
      HeaderGrow(header, buf[|header|..], vloc, vecLen, fixed, keys, b);
    }

    /** CreateVector. The caller passes the number of elements, and for a typed
        vector elements of one type that such a vector can have. */
    method CreateVector(start: nat, vecLen: nat, step: nat, typed: bool, fixed: bool, keys: Option<Value>) returns (v: Value)
      requires step > 0 && vecLen == |Elems(stack, start, step)| && (fixed ==> typed && 2 <= vecLen <= 4)
      requires AllWf(stack, |buf|) && KeysOk(keys, |buf|) && Addressable(|buf|, |stack| + 3)
      requires typed ==> SameType(Elems(stack, start, step)) && AllElementTypes(Elems(stack, start, step))
      modifies this`buf
      ensures old(buf) <= buf && v.RefV? && forceMin <= v.width && Built(buf, v, typed, fixed, keys, Elems(stack, start, step))
      ensures Least(stack, start, step, vecLen, |old(buf)|, vecLen, keys, forceMin, v.width)
    {
      hide Fits, Wf, ReadsAll, HeaderReads, Elems, Types, AllFit, Cap, Size, IsElementType, Built, Least, TypeReads, VectorType;
      assert IsElementType(FBT_KEY) by { KeyType(); }
      ghost var es := Elems(stack, start, step);
      ElemsLength(stack, start, step);
      TypesOfWf(stack, |buf|);
      var b, typ := PickWidth(start, vecLen, step, typed, keys);
      var vloc := WriteBody(start, vecLen, step, fixed, keys, b);
      assert typed ==> IsElementType(typ);
      v := RefV(vloc, VectorType(typed, fixed, keys, typ, vecLen), b);
      VectorTypeReads(typed, fixed, keys, typ, es);
      if typed {
        BuiltTyped(buf, v, fixed, keys, es);
      } else {
        ghost var was := buf;
        WriteTypes(start, step, b);
        BuiltUntyped(was, v, fixed, keys, es);
      }
    }

    /** EndVector: the elements leave the stack and the vector takes their place. */
    method EndVector(start: nat, typed: bool, fixed: bool) returns (at: nat)
      requires start <= |stack| && (fixed ==> typed && 2 <= |stack| - start <= 4)
      requires AllWf(stack, |buf|) && Addressable(|buf|, |stack| + 3)
      requires typed ==> SameType(stack[start..]) && AllElementTypes(stack[start..])
      modifies this
      ensures old(buf) <= buf && |stack| == start + 1 && stack[..start] == old(stack)[..start]
      ensures stack[start].RefV? && at == stack[start].at && Built(buf, stack[start], typed, fixed, None, old(stack)[start..])
      ensures Least(old(stack), start, 1, |old(stack)| - start, |old(buf)|, |old(stack)| - start, None, forceMin, stack[start].width)
    {
      hide Built, Least;
      ElemsAll(stack, start);
      var v := CreateVector(start, |stack| - start, 1, typed, fixed, None);
      stack := stack[..start] + [v];
      at := v.at;
    }
  }

  /** A vector value of the builder, with everything that reads back from it:
      the size and keys in front, the elements, and the types behind. */
  ghost predicate Built(buf: seq<Byte>, v: Value, typed: bool, fixed: bool, keys: Option<Value>, es: seq<Value>) {
    && v.RefV? && TypeReads(v.typ, typed, fixed, keys, es) && v.at + |es| * Size(v.width) <= |buf|
    && HeaderReads(buf, v.at, |es|, fixed, keys, v.width)
    && ReadsAll(buf, v.at, v.width, es)
    && (!typed ==> AllTypes(es) && buf[v.at + |es| * Size(v.width)..] == Types(es, v.width))
  }

  lemma BuiltTyped(buf: seq<Byte>, v: Value, fixed: bool, keys: Option<Value>, es: seq<Value>)
    requires v.RefV? && TypeReads(v.typ, true, fixed, keys, es) && v.at + |es| * Size(v.width) == |buf|
    requires HeaderReads(buf, v.at, |es|, fixed, keys, v.width) && ReadsAll(buf, v.at, v.width, es)
    ensures Built(buf, v, true, fixed, keys, es)
  {
  }

  lemma BuiltUntyped(was: seq<Byte>, v: Value, fixed: bool, keys: Option<Value>, es: seq<Value>)
    requires v.RefV? && TypeReads(v.typ, false, fixed, keys, es) && v.at + |es| * Size(v.width) == |was| && AllTypes(es)
    requires HeaderReads(was, v.at, |es|, fixed, keys, v.width) && ReadsAll(was, v.at, v.width, es)
    ensures Built(was + Types(es, v.width), v, false, fixed, keys, es)
  {
    hide HeaderReads, ReadsAll, Types, Size, TypeReads;
    HeaderGrow(was, Types(es, v.width), v.at, |es|, fixed, keys, v.width);
    ReadsAllGrow(was, Types(es, v.width), v.at, v.width, es);
    assert (was + Types(es, v.width))[|was|..] == Types(es, v.width);
  }

  const FBT_MAP := 9
  const FBT_VECTOR := 10

  /** Types that a typed vector can hold. */
  predicate IsElementType(t: nat) { 1 <= t <= 5 || t == 26 }

  function ToTypedVector(t: nat, fixedLen: nat): nat
    requires IsElementType(t) && (fixedLen == 0 || 2 <= fixedLen <= 4)
  {
    t - 1 + if fixedLen == 0 then 11 else if fixedLen == 2 then 16 else if fixedLen == 3 then 19 else 22
  }

  function VectorType(typed: bool, fixed: bool, keys: Option<Value>, typ: nat, vecLen: nat): (t: nat)
    requires typed ==> IsElementType(typ)
    requires fixed ==> 2 <= vecLen <= 4
    ensures t < 64
  {
    if keys.Some? then FBT_MAP
    else if typed then ToTypedVector(typ, if fixed then vecLen else 0)
    else FBT_VECTOR
  }

  // ---------------------------------------------------------------------
  // What the reader makes of a type

  predicate IsTypedVector(t: nat) { 11 <= t <= 15 || t == 36 }

  predicate IsFixedTypedVector(t: nat) { 16 <= t <= 24 }

  function ToTypedVectorElementType(t: nat): int { t - 11 + 1 }

  /** The element type of a fixed vector, and its length. */
  function ToFixedTypedVectorElementType(t: nat): (int, int) {
    ((t - 16) % 3 + 1, (t - 16) / 3 + 2)
  }

  /** The reader finds a map, an untyped vector, or the common type of the
      elements and, in a fixed vector, their number. */
  predicate TypeReads(t: nat, typed: bool, fixed: bool, keys: Option<Value>, es: seq<Value>) {
    && t < 64
    && if keys.Some? then t == FBT_MAP
       else if !typed then t == FBT_VECTOR
       else if !fixed then IsTypedVector(t) && ToTypedVectorElementType(t) == if es == [] then FBT_KEY else es[0].typ
       else es != [] && es[0].typ <= 3 ==> IsFixedTypedVector(t) && ToFixedTypedVectorElementType(t) == (es[0].typ, |es|)
  }

  lemma VectorTypeReads(typed: bool, fixed: bool, keys: Option<Value>, typ: nat, es: seq<Value>)
    requires typed ==> IsElementType(typ) && typ == if es == [] then FBT_KEY else es[0].typ
    requires fixed ==> typed && 2 <= |es| <= 4
    ensures TypeReads(VectorType(typed, fixed, keys, typ, |es|), typed, fixed, keys, es)
  {
    if fixed && typ <= 3 { FixedTypeExact(typ, |es|); }
  }

  /** A fixed vector's type gives its element type and length back exactly for
      numbers; the builder takes keys, strings and booleans all the same. */
  lemma FixedTypeExact(t: nat, n: nat)
    requires IsElementType(t) && 2 <= n <= 4
    ensures var v := ToTypedVector(t, n);
      IsFixedTypedVector(v) && ToFixedTypedVectorElementType(v) == (t, n) <==> t <= 3
  {
    if t <= 3 { ModUnique(3 * (n - 2) + (t - 1), 3, n - 2, t - 1); }
  }

  /** A pair of keys reads as a triple of integers. */
  lemma FixedKeysMisread()
    ensures ToFixedTypedVectorElementType(ToTypedVector(FBT_KEY, 2)) == (1, 3)
  {
  }

  /** Reference: the low two bits are the width, the rest the type. */
  lemma PackedReads(v: Value, parent: Width)
    requires v.typ < 64
    ensures Packed(v, parent) / 4 == v.typ
    ensures Packed(v, parent) % 4 == if v.RefV? then v.width else MaxWidth(v.width, parent)
  {
  }

  /** Vector::operator[] finds the type of each element behind the elements. */
  lemma UntypedReads(buf: seq<Byte>, v: Value, fixed: bool, keys: Option<Value>, es: seq<Value>, k: nat)
    requires Built(buf, v, false, fixed, keys, es) && k < |es|
    ensures var at := v.at + |es| * Size(v.width) + k;
      && at < |buf| && buf[at] / 4 == es[k].typ
      && buf[at] % 4 == if es[k].RefV? then es[k].width else MaxWidth(es[k].width, v.width)
  {
    hide HeaderReads, ReadsAll, Size;
    var from := v.at + |es| * Size(v.width);
    assert buf[from..][k] == Types(es, v.width)[k];
    PackedReads(es[k], v.width);
  }

  lemma KeyType()
    ensures IsElementType(FBT_KEY)
  {
  }

  predicate AllElementTypes(vs: seq<Value>) { forall k :: 0 <= k < |vs| ==> IsElementType(vs[k].typ) }

  predicate AllTypes(vs: seq<Value>) { forall k :: 0 <= k < |vs| ==> vs[k].typ < 64 }

  function Types(vs: seq<Value>, b: Width): seq<Byte>
    requires AllTypes(vs)
  {
    seq(|vs|, k requires 0 <= k < |vs| => Packed(vs[k], b))
  }

  lemma TypesOfWf(vs: seq<Value>, n: nat)
    requires AllWf(vs, n)
    ensures AllTypes(vs)
  {
    hide WidthU, WidthI;
  }

  lemma {:induction false} ElemsTypes(stack: seq<Value>, i: nat, step: nat)
    requires step > 0 && AllTypes(stack)
    ensures AllTypes(Elems(stack, i, step))
    decreases |stack| - i
  {
    if i < |stack| { ElemsTypes(stack, i + step, step); }
  }

  lemma ElemsNext(stack: seq<Value>, i: nat, step: nat, es: seq<Value>, k: nat)
    requires step > 0 && i < |stack| && k <= |es| && es[k..] == Elems(stack, i, step)
    ensures k < |es| && es[k] == stack[i] && es[k + 1..] == Elems(stack, i + step, step)
    ensures es[..k + 1] == es[..k] + [stack[i]]
  {
    assert stack[i] == es[k..][0] == es[k];
    assert es[k + 1..] == es[k..][1..];
  }

  lemma ElemsEnd(stack: seq<Value>, i: nat, step: nat, es: seq<Value>, k: nat)
    requires step > 0 && i >= |stack| && k <= |es| && es[k..] == Elems(stack, i, step)
    ensures k == |es| && es[..k] == es
  {
  }

  lemma {:induction false} ElemsLength(stack: seq<Value>, i: nat, step: nat)
    requires step > 0
    ensures |Elems(stack, i, step)| <= if i < |stack| then |stack| - i else 0
    decreases |stack| - i
  {
    if i < |stack| { ElemsLength(stack, i + step, step); }
  }

  lemma {:induction false} ElemsAll(stack: seq<Value>, i: nat)
    requires i <= |stack|
    ensures Elems(stack, i, 1) == stack[i..]
    decreases |stack| - i
  {
    if i < |stack| { ElemsAll(stack, i + 1); }
  }

  lemma UIntGrow(buf: seq<Byte>, more: seq<Byte>, at: nat, b: Width)
    requires at + Size(b) <= |buf|
    ensures ReadUInt(buf + more, at, b) == ReadUInt(buf, at, b)
  {
    hide Size;
    SliceLeft(buf, more, at, at + Size(b));
  }

  lemma HeaderGrow(buf: seq<Byte>, more: seq<Byte>, vloc: nat, vecLen: nat, fixed: bool, keys: Option<Value>, b: Width)
    requires HeaderReads(buf, vloc, vecLen, fixed, keys, b)
    ensures HeaderReads(buf + more, vloc, vecLen, fixed, keys, b)
  {
    HeaderRoom(vloc, fixed, keys, b);
    hide ReadUInt, Reads, Size, HeaderLen;
    if !fixed { UIntGrow(buf, more, vloc - Size(b), b); }
    if keys.Some? {
      var at := vloc - HeaderLen(fixed, keys) * Size(b);
      ReadsGrow(buf, more, at, b, keys.value);
      UIntGrow(buf, more, at + Size(b), b);
    }
  }

  lemma HeaderRoom(vloc: nat, fixed: bool, keys: Option<Value>, b: Width)
    requires HeaderLen(fixed, keys) * Size(b) <= vloc
    ensures !fixed ==> Size(b) <= vloc
    ensures keys.Some? ==> vloc - HeaderLen(fixed, keys) * Size(b) + 2 * Size(b) <= vloc
  {
  }

  lemma UIntWritten(buf: seq<Byte>, v: nat, b: Width)
    requires v < Cap(b)
    ensures var s := buf + Le(v, Size(b));
      |buf| + Size(b) == |s| && ReadUInt(s, |buf|, b) == v
  {
    var s := Le(v, Size(b));
    assert (buf + s)[|buf|..|buf| + Size(b)] == s;
    CapIsPow(b);
    DeLe(v, Size(b));
  }

  lemma CapAtLeast(b: Width)
    ensures Cap(b) > 8
  {
  }

  lemma CapMono(b: Width, c: Width)
    requires b <= c
    ensures Cap(b) <= Cap(c)
  {
  }

  const FBT_KEY := 4

  function Prefix(keys: Option<Value>): nat { if keys.Some? then 3 else 1 }

  function HeaderLen(fixed: bool, keys: Option<Value>): nat {
    (if keys.Some? then 2 else 0) + if fixed then 0 else 1
  }

  predicate AllWf(vs: seq<Value>, n: nat) { forall k :: 0 <= k < |vs| ==> Wf(vs[k], n) }

  predicate KeysOk(keys: Option<Value>, n: nat) { keys.Some? ==> keys.value.RefV? && Wf(keys.value, n) }

  predicate SameType(vs: seq<Value>) { forall k :: 0 <= k < |vs| ==> vs[k].typ == vs[0].typ }

  predicate AllFit(vs: seq<Value>, n: nat, prefix: nat, b: Width)
    requires n < TWO64
  {
    forall k :: 0 <= k < |vs| ==> Fits(vs[k], n, k + prefix, b)
  }

  lemma AllFitWider(vs: seq<Value>, n: nat, prefix: nat, b: Width, c: Width)
    requires Addressable(n, |vs| + prefix) && AllFit(vs, n, prefix, b) && b <= c
    ensures AllFit(vs, n, prefix, c)
  {
    forall k | 0 <= k < |vs| ensures Fits(vs[k], n, k + prefix, c) {
      FitsWider(vs[k], n, k + prefix, b, k + prefix, c);
    }
  }

  lemma AllFitAppend(vs: seq<Value>, v: Value, n: nat, prefix: nat, b: Width)
    requires n < TWO64 && AllFit(vs, n, prefix, b) && Fits(v, n, |vs| + prefix, b)
    ensures AllFit(vs + [v], n, prefix, b)
  {
    hide Fits;
  }

  /** The size, and the keys' place and width, in front of the elements. */
  predicate HeaderReads(buf: seq<Byte>, vloc: nat, vecLen: nat, fixed: bool, keys: Option<Value>, b: Width) {
    && HeaderLen(fixed, keys) * Size(b) <= vloc <= |buf|
    && (!fixed ==> ReadUInt(buf, vloc - Size(b), b) == vecLen)
    && (keys.Some? ==>
          var at := vloc - HeaderLen(fixed, keys) * Size(b);
          Reads(buf, at, b, keys.value) && ReadUInt(buf, at + Size(b), b) == Size(keys.value.width))
  }
}

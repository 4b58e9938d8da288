/** vector_downward (flatbuffers.h): one allocation holding two stacks. Data
    grows from the high end downwards; scratch grows from the low end upwards. */
module DownwardVector {
  import opened Bytes

  // ---------------------------------------------------------------------
  // Rounding the allocation size

  /** (reserved + minalign - 1) & ~(minalign - 1) on size_t. */
  function RoundUpBits(n: nat, align: nat): nat
    requires 1 <= align && n + align - 1 < TWO64
  {
    And(n + align - 1, Not64(align - 1))
  }

  /** The bit form rounds up to the next multiple, short of wrap-around. */
  lemma RoundUpBitsCorrect(n: nat, k: nat)
    requires k <= 63 && n + Pow2(k) - 1 < TWO64
    ensures RoundUpBits(n, Pow2(k)) == n + Padding(n, Pow2(k))
  {
    hide And, Padding, Pow2;
    var x := n + Pow2(k) - 1;
    MaskHigh(x, k);
    RoundUpArith(n, Pow2(k));
  }

  lemma MaskHigh(x: nat, k: nat)
    requires k <= 63 && x < TWO64 && Pow2(k) <= TWO64
    ensures And(x, Not64(Pow2(k) - 1)) == x - x % Pow2(k)
  {
    Pow2Of64();
    AndSplit(x, Pow2(k) - 1, 64);
    AndLowMask(x, k);
  }

  lemma RoundUpArith(n: nat, m: nat)
    requires m >= 1
    ensures (n + m - 1) - (n + m - 1) % m == n + Padding(n, m)
  {
    var p := Padding(n, m);
    PaddingAligns(n, m);
    DivMod(n + p, m);
    ModUnique(n + m - 1, m, (n + p) / m, m - 1 - p);
  }

  /** The new allocation size. There is no block for a size whose rounding would
      leave the address space; short of that it is the source's mask form. */
  function RoundUp(n: nat, align: nat): nat
    requires align >= 1
  {
    if n + align - 1 < TWO64 then RoundUpBits(n, align) else n + Padding(n, align)
  }

  lemma RoundUpCorrect(n: nat, k: nat)
    requires k <= 63
    ensures RoundUp(n, Pow2(k)) == n + Padding(n, Pow2(k))
  {
    hide RoundUpBits, Padding, Pow2;
    if n + Pow2(k) - 1 < TWO64 { RoundUpBitsCorrect(n, k); }
  }

  /** Zero bytes stored one at a time. */
  method ZeroRange(a: array<Byte>, from: nat, count: nat)
    requires from + count <= a.Length
    modifies a
    ensures forall k :: from <= k < from + count ==> a[k] == 0
    ensures forall k :: 0 <= k < a.Length && !(from <= k < from + count) ==> a[k] == old(a[k])
  {
    var i := 0;
    while i < count
      invariant 0 <= i <= count
      invariant forall k :: from <= k < from + i ==> a[k] == 0
      invariant forall k :: 0 <= k < a.Length && !(from <= k < from + i) ==> a[k] == old(a[k])
    {
      a[from + i] := 0;
      i := i + 1;
    }
  }

  // ---------------------------------------------------------------------
  // The vector

  class VectorDownward {
    const initialSize: nat
    const minalign: nat       // buffer_minalign_
    ghost const alignBits: nat
    var buf: array<Byte>      // buf_; its length is reserved_
    var cur: nat              // cur_ - buf_
    var scratch: nat          // scratch_ - buf_

    ghost predicate Valid()
      reads this
    {
      scratch <= cur <= buf.Length && alignBits <= 63 && minalign == Pow2(alignBits)
    }

    /** The downward stack in address order: the newest byte comes first. */
    ghost function Data(): (s: seq<Byte>)
      requires Valid()
      reads this, buf
    {
      buf[cur..]
    }

    /** The scratch stack, oldest byte first. */
    ghost function Scratch(): (s: seq<Byte>)
      requires Valid()
      reads this, buf
    {
      buf[..scratch]
    }

    /** Alignments are powers of two. */
    constructor (initialSize: nat, minalign: nat, ghost alignBits: nat)
      requires alignBits <= 63 && minalign == Pow2(alignBits)
      ensures Valid() && Data() == [] && Scratch() == []
      ensures fresh(buf)
    {
      this.initialSize := initialSize;
      this.minalign := minalign;
      this.alignBits := alignBits;
      buf := new Byte[0];
      cur := 0;
      scratch := 0;
    }

    function Size(): (n: nat)
      requires Valid()
      reads this, buf
      ensures n == |Data()|
    {
      buf.Length - cur
    }

    /** The n bytes stored at data_at(offset). */
    function Peek(offset: nat, n: nat): (r: seq<Byte>)
      requires Valid() && n <= offset <= |Data()|
      reads this, buf
      ensures r == Data()[|Data()| - offset..|Data()| - offset + n]
    {
      buf[buf.Length - offset..buf.Length - offset + n]
    }

    /** reallocate: a bigger block with both stacks copied to its two ends. */
    method Reallocate(len: nat)
      requires Valid()
      modifies this`buf, this`cur
      ensures Valid() && fresh(buf)
      ensures Data() == old(Data()) && Scratch() == old(Scratch())
      ensures cur - scratch >= old(cur) - old(scratch) + len
    {
      hide RoundUp, Padding, Pow2;
      var oldSize := buf.Length - cur;
      var grown := buf.Length
                   + Max(len, if buf.Length != 0 then buf.Length / 2 else initialSize);
      var reserved := RoundUp(grown, minalign);
      RoundUpCorrect(grown, alignBits);
      var bigger := new Byte[reserved](_ => 0);
      forall i | 0 <= i < oldSize {
        bigger[reserved - oldSize + i] := buf[cur + i];
      }
      forall i | 0 <= i < scratch {
        bigger[i] := buf[i];
      }
      buf := bigger;
      cur := reserved - oldSize;
    }

    /** ensure_space: room for len more bytes between the stacks. */
    method EnsureSpace(len: nat)
      requires Valid()
      modifies this`buf, this`cur
      ensures Valid() && (buf == old(buf) || fresh(buf))
      ensures Data() == old(Data()) && Scratch() == old(Scratch())
      ensures cur - scratch >= len
    {
      if len > cur - scratch {
        Reallocate(len);
      }
    }

    /** push: bytes become the new low end of the data. */
    method Push(bytes: seq<Byte>)
      requires Valid()
      modifies this`buf, this`cur, buf
      ensures Valid() && (buf == old(buf) || fresh(buf))
      ensures Data() == bytes + old(Data()) && Scratch() == old(Scratch())
    {
      EnsureSpace(|bytes|);
      cur := cur - |bytes|;
      forall i | 0 <= i < |bytes| {
        buf[cur + i] := bytes[i];
      }
    }

    /** fill: zero bytes become the new low end of the data. */
    method Fill(count: nat)
      requires Valid()
      modifies this`buf, this`cur, buf
      ensures Valid() && (buf == old(buf) || fresh(buf))
      ensures Data() == Zeros(count) + old(Data()) && Scratch() == old(Scratch())
    {
      EnsureSpace(count);
      cur := cur - count;
      hide Zeros;
      ZeroRange(buf, cur, count);
    }

    /** pop: forget the newest count bytes of the data. */
    method Pop(count: nat)
      requires Valid() && count <= |Data()|
      modifies this`cur
      ensures Valid() && Data() == old(Data())[count..] && Scratch() == old(Scratch())
    {
      cur := cur + count;
    }

    method ScratchPush(bytes: seq<Byte>)
      requires Valid()
      modifies this, buf
      ensures Valid() && (buf == old(buf) || fresh(buf))
      ensures Data() == old(Data()) && Scratch() == old(Scratch()) + bytes
    {
      EnsureSpace(|bytes|);
      forall i | 0 <= i < |bytes| {
        buf[scratch + i] := bytes[i];
      }
      scratch := scratch + |bytes|;
    }

    method ScratchPop(count: nat)
      requires Valid() && count <= |Scratch()|
      modifies this`scratch
      ensures Valid() && Data() == old(Data())
      ensures Scratch() == old(Scratch())[..|old(Scratch())| - count]
    {
      scratch := scratch - count;
    }

    /** clear_scratch. */
    method ClearScratch()
      requires Valid()
      modifies this`scratch
      ensures Valid() && Data() == old(Data()) && Scratch() == []
    {
      scratch := 0;
    }

    /** WriteScalar(data_at(offset), …): overwrite bytes named from the end. */
    method WriteAt(offset: nat, bytes: seq<Byte>)
      requires Valid() && |bytes| <= offset <= |Data()|
      modifies buf
      ensures Valid() && Scratch() == old(Scratch())
      ensures Data() == Patch(old(Data()), offset, bytes)
    {
      var p := buf.Length - offset;
      forall i | 0 <= i < |bytes| {
        buf[p + i] := bytes[i];
      }
    }
  }

  /** data with bytes stored at the place that lies offset bytes before the end. */
  function Patch(data: seq<Byte>, offset: nat, bytes: seq<Byte>): (r: seq<Byte>)
    requires |bytes| <= offset <= |data|
    ensures |r| == |data|
  {
    var p := |data| - offset;
    data[..p] + bytes + data[p + |bytes|..]
  }

  // ---------------------------------------------------------------------
  // Any run of operations behaves as two independent stacks

  datatype Op =
    | Push(bytes: seq<Byte>)
    | Fill(count: nat)
    | Pop(count: nat)
    | Store(offset: nat, bytes: seq<Byte>)
    | ScratchPush(bytes: seq<Byte>)
    | ScratchPop(count: nat)

  /** The data stack alone: scratch operations do not reach it. */
  function DataAfter(d: seq<Byte>, op: Op): seq<Byte> {
    match op
    case Push(b) => b + d
    case Fill(n) => Zeros(n) + d
    case Pop(n) => if n <= |d| then d[n..] else []
    case Store(o, b) => if |b| <= o <= |d| then Patch(d, o, b) else d
    case _ => d
  }

  /** The scratch stack alone: data operations do not reach it. */
  function ScratchAfter(s: seq<Byte>, op: Op): seq<Byte> {
    match op
    case ScratchPush(b) => s + b
    case ScratchPop(n) => if n <= |s| then s[..|s| - n] else []
    case _ => s
  }

  function RunData(d: seq<Byte>, ops: seq<Op>): seq<Byte>
    decreases |ops|
  {
    if ops == [] then d else RunData(DataAfter(d, ops[0]), ops[1..])
  }

  function RunScratch(s: seq<Byte>, ops: seq<Op>): seq<Byte>
    decreases |ops|
  {
    if ops == [] then s else RunScratch(ScratchAfter(s, ops[0]), ops[1..])
  }

  /** Callers only pop and overwrite what is there. */
  predicate Legal(d: seq<Byte>, s: seq<Byte>, ops: seq<Op>)
    decreases |ops|
  {
    ops != [] ==>
    && (ops[0].Pop? ==> ops[0].count <= |d|)
    && (ops[0].Store? ==> |ops[0].bytes| <= ops[0].offset <= |d|)
    && (ops[0].ScratchPop? ==> ops[0].count <= |s|)
    && Legal(DataAfter(d, ops[0]), ScratchAfter(s, ops[0]), ops[1..])
  }

  method Apply(v: VectorDownward, op: Op)
    requires v.Valid()
    requires op.Pop? ==> op.count <= |v.Data()|
    requires op.Store? ==> |op.bytes| <= op.offset <= |v.Data()|
    requires op.ScratchPop? ==> op.count <= |v.Scratch()|
    modifies v, v.buf
    ensures v.Valid() && (v.buf == old(v.buf) || fresh(v.buf))
    ensures v.Data() == DataAfter(old(v.Data()), op)
    ensures v.Scratch() == ScratchAfter(old(v.Scratch()), op)
  {
    match op {
      case Push(b) => v.Push(b);
      case Fill(n) => v.Fill(n);
      case Pop(n) => v.Pop(n);
      case Store(o, b) => v.WriteAt(o, b);
      case ScratchPush(b) => v.ScratchPush(b);
      case ScratchPop(n) => v.ScratchPop(n);
    }
  }

  method Replay(v: VectorDownward, ops: seq<Op>)
    requires v.Valid() && Legal(v.Data(), v.Scratch(), ops)
    modifies v, v.buf
    ensures v.Valid()
    ensures v.Data() == RunData(old(v.Data()), ops)
    ensures v.Scratch() == RunScratch(old(v.Scratch()), ops)
  {
    var i := 0;
    while i < |ops|
      invariant 0 <= i <= |ops| && v.Valid()
      invariant v.buf == old(v.buf) || fresh(v.buf)
      invariant Legal(v.Data(), v.Scratch(), ops[i..])
      invariant RunData(v.Data(), ops[i..]) == RunData(old(v.Data()), ops)
      invariant RunScratch(v.Scratch(), ops[i..]) == RunScratch(old(v.Scratch()), ops)
    {
      assert ops[i..][1..] == ops[i + 1..];
      Apply(v, ops[i]);
      i := i + 1;
    }
  }

  /** No pop goes below size `keep` and no store reaches the last `keep` bytes. */
  predicate NeverBelow(d: seq<Byte>, ops: seq<Op>, keep: nat)
    decreases |ops|
  {
    && keep <= |d|
    && (ops == [] ||
          ((ops[0].Store? ==> keep + |ops[0].bytes| <= ops[0].offset)
           && NeverBelow(DataAfter(d, ops[0]), ops[1..], keep)))
  }

  function AtEnd(d: seq<Byte>, offset: nat): (r: seq<Byte>)
    requires offset <= |d|
    ensures |r| == offset
  {
    d[|d| - offset..]
  }

  /** End-relative addresses are stable: the bytes at every end-offset up to
      `keep` stay the same. */
  lemma {:induction false} EndOffsetsStable(d: seq<Byte>, ops: seq<Op>, keep: nat)
    requires NeverBelow(d, ops, keep)
    ensures |RunData(d, ops)| >= keep
    ensures AtEnd(RunData(d, ops), keep) == AtEnd(d, keep)
    decreases |ops|
  {
    hide DataAfter, AtEnd;
    if ops != [] {
      EndStable(d, ops[0], keep);
      EndOffsetsStable(DataAfter(d, ops[0]), ops[1..], keep);
    }
  }

  lemma EndStable(d: seq<Byte>, op: Op, keep: nat)
    requires keep <= |d| && keep <= |DataAfter(d, op)| && (op.Store? ==> keep + |op.bytes| <= op.offset)
    ensures AtEnd(DataAfter(d, op), keep) == AtEnd(d, keep)
  {
    if op.Store? && op.offset <= |d| {
      var p := |d| - op.offset;
      assert Patch(d, op.offset, op.bytes)[|d| - keep..] == d[p + |op.bytes|..][op.offset - |op.bytes| - keep..];
    }
  }

  /** The two stacks never interfere: dropping every scratch operation from a
      run leaves the data it computes unchanged, and conversely. */
  function OnlyData(ops: seq<Op>): seq<Op> {
    if ops == [] then []
    else if ops[0].ScratchPush? || ops[0].ScratchPop? then OnlyData(ops[1..])
    else [ops[0]] + OnlyData(ops[1..])
  }

  function OnlyScratch(ops: seq<Op>): seq<Op> {
    if ops == [] then []
    else if ops[0].ScratchPush? || ops[0].ScratchPop? then [ops[0]] + OnlyScratch(ops[1..])
    else OnlyScratch(ops[1..])
  }

  lemma {:induction false} StacksIndependent(d: seq<Byte>, s: seq<Byte>, ops: seq<Op>)
    ensures RunData(d, ops) == RunData(d, OnlyData(ops))
    ensures RunScratch(s, ops) == RunScratch(s, OnlyScratch(ops))
    decreases |ops|
  {
    if ops != [] {
      var op := ops[0];
      StacksIndependent(DataAfter(d, op), ScratchAfter(s, op), ops[1..]);
      if op.ScratchPush? || op.ScratchPop? {
        assert OnlyScratch(ops)[1..] == OnlyScratch(ops[1..]);
      } else {
        assert OnlyData(ops)[1..] == OnlyData(ops[1..]);
      }
    }
  }
}

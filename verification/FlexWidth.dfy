/** FlexBuffers width selection: the narrowest of 1, 2, 4 and 8 bytes for an
    integer, and for an offset whose size depends on the width chosen. */
module FlexWidth {
  import opened Bytes
  import opened DownwardVector

  /** BitWidth: 0, 1, 2, 3 for 8, 16, 32, 64 bits. */
  type Width = b: nat | b <= 3

  function Size(b: Width): (n: nat)
    ensures IsAlign(n)
  {
    if b == 0 then 1 else if b == 1 then 2 else if b == 2 then 4 else 8
  }

  /** The number of values of a width. */
  function Cap(b: Width): nat {
    if b == 0 then 0x100 else if b == 1 then TWO16 else if b == 2 then TWO32 else TWO64
  }

  function MaxWidth(a: Width, b: Width): Width { if a < b then b else a }

  lemma CapIsPow(b: Width)
    ensures Cap(b) == Pow256(Size(b))
  {
    Widths();
  }

  // ---------------------------------------------------------------------
  // Integers

  /** Bits above the given number are all clear. */
  predicate HighBitsClear(u: nat, bits: nat)
    requires u < TWO64 && bits < 64 && Pow2(bits) <= TWO64
  {
    And(u, Not64(Pow2(bits) - 1)) == 0
  }

  lemma HighBitsExact(u: nat, bits: nat)
    requires u < TWO64 && bits < 64 && Pow2(bits) <= TWO64
    ensures HighBitsClear(u, bits) <==> u < Pow2(bits)
  {
    hide And;
    MaskHigh(u, bits);
    DivMod(u, Pow2(bits));
    if u < Pow2(bits) { ModUnique(u, Pow2(bits), 0, u); }
  }

  lemma Pows()
    ensures Pow2(8) == 0x100 && Pow2(16) == TWO16 && Pow2(32) == TWO32
  {
    hide Pow2;
    Pow2Of32();
  }

  function WidthU(u: nat): Width
    requires u < TWO64
  {
    Pows();
    if HighBitsClear(u, 8) then 0 else if HighBitsClear(u, 16) then 1 else if HighBitsClear(u, 32) then 2 else 3
  }

  /** WidthU is the least width that holds the value. */
  lemma WidthUExact(u: nat, b: Width)
    requires u < TWO64
    ensures u < Cap(b) <==> WidthU(u) <= b
  {
    hide HighBitsClear;
    Pows();
    HighBitsExact(u, 8);
    HighBitsExact(u, 16);
    HighBitsExact(u, 32);
  }

  predicate Int64(i: int) { -0x8000_0000_0000_0000 <= i < 0x8000_0000_0000_0000 }

  /** The sign bit moves to the low end; a negative value is complemented. */
  function WidthI(i: int): Width
    requires Int64(i)
  {
    var u := (2 * (i % TWO64)) % TWO64;
    WidthU(if i >= 0 then u else Not64(u))
  }

  predicate FitsSigned(i: int, b: Width) { 0 - Cap(b) <= 2 * i < Cap(b) }

  /** WidthI is the least signed width that holds the value. */
  lemma WidthIExact(i: int, b: Width)
    requires Int64(i)
    ensures FitsSigned(i, b) <==> WidthI(i) <= b
  {
    hide WidthU;
    var u := (2 * (i % TWO64)) % TWO64;
    if i >= 0 {
      ModUnique(i, TWO64, 0, i);
      ModUnique(2 * i, TWO64, 0, 2 * i);
      WidthUExact(u, b);
    } else {
      ModUnique(i, TWO64, -1, i + TWO64);
      ModUnique(2 * (i + TWO64), TWO64, 1, 2 * i + TWO64);
      WidthUExact(Not64(u), b);
    }
  }

  // ---------------------------------------------------------------------
  // Offsets

  /** Where an offset to u would count from, in element idx of width b. */
  function OffsetAt(bufSize: nat, idx: nat, u: nat, b: Width): int
    requires bufSize < TWO64
  {
    bufSize + PaddingBytes(bufSize, Size(b)) + idx * Size(b) - u
  }

  /** The buffer with its padding and all the elements is addressable. */
  predicate Addressable(bufSize: nat, idx: nat) { bufSize + 8 + 8 * idx < TWO64 }

  lemma PadBounds(n: nat, b: Width)
    requires n < TWO64
    ensures PaddingBytes(n, Size(b)) == Padding(n, Size(b)) < Size(b)
  {
    PaddingBytesCorrect(n, b);
    assert Pow2(b) == Size(b) by { assert Pow2(0) == 1 && Pow2(1) == 2 && Pow2(2) == 4 && Pow2(3) == 8; }
  }

  lemma ModDoubles(d: int)
    ensures d % 1 == 0 && d % 2 <= d % 4 <= d % 8
  {
    var q := d / 8;
    var r := d % 8;
    DivMod(d, 8);
    if r < 4 { ModUnique(d, 4, 2 * q, r); } else { ModUnique(d, 4, 2 * q + 1, r - 4); }
    var r4 := d % 4;
    DivMod(d, 4);
    if r4 < 2 { ModUnique(d, 2, 2 * (d / 4), r4); } else { ModUnique(d, 2, 2 * (d / 4) + 1, r4 - 2); }
  }

  /** The offset never decreases as the width doubles. */
  lemma OffsetGrows(n: nat, idx: nat, u: nat, b: Width)
    requires n < TWO64 && b < 3
    ensures OffsetAt(n, idx, u, b) <= OffsetAt(n, idx, u, b + 1)
  {
    hide PaddingBytes;
    PadBounds(n, b);
    PadBounds(n, b + 1);
    ModDoubles(0 - n);
    MulMono(idx, Size(b), Size(b + 1));
  }

  lemma OffsetBounds(n: nat, idx: nat, u: nat, b: Width)
    requires n < TWO64 && u <= n && Addressable(n, idx)
    ensures idx * Size(b) <= OffsetAt(n, idx, u, b) < TWO64
  {
    PadBounds(n, b);
  }

  /** A width that holds its own offset: so does every wider one, and every
      smaller index. */
  lemma OffsetFitsWider(n: nat, idx: nat, u: nat, b: Width, c: Width, at: nat)
    requires u <= n && Addressable(n, idx) && b <= c && at <= idx
    requires OffsetAt(n, idx, u, b) < Cap(b)
    ensures OffsetAt(n, at, u, c) < Cap(c)
  {
    hide PaddingBytes, Padding;
    PadBounds(n, b);
    PadBounds(n, c);
    MulMono(Size(c), at, idx);
    if b < c { Widen(n - u, PaddingBytes(n, Size(c)), idx, b, c); }
  }

  lemma Widen(d: nat, pad: nat, idx: nat, b: Width, c: Width)
    requires b < c && pad < Size(c) && d + idx * Size(b) < Cap(b) && d + 8 + 8 * idx < TWO64
    ensures d + pad + idx * Size(c) < Cap(c)
  {
    assert idx <= idx * Size(b);
    assert idx * Size(c) <= 8 * idx;
  }

  /** ElemWidth of an offset: try each width in turn. The assertion after the
      source's loop is never reached. */
  method OffsetWidth(bufSize: nat, idx: nat, u: nat) returns (b: Width)
    requires u <= bufSize && Addressable(bufSize, idx)
    ensures OffsetAt(bufSize, idx, u, b) < Cap(b)
    ensures forall c: Width :: c < b ==> OffsetAt(bufSize, idx, u, c) >= Cap(c)
  {
    hide WidthU, OffsetAt;
    var w: nat := 0;
    while w <= 3
      invariant w <= 4
      invariant forall c: Width :: c < w ==> OffsetAt(bufSize, idx, u, c) >= Cap(c)
    {
      OffsetBounds(bufSize, idx, u, w);
      var offset := OffsetAt(bufSize, idx, u, w);
      WidthUExact(offset, w);
      if w > 0 {
        OffsetGrows(bufSize, idx, u, w - 1);
        WidthUExact(offset, w - 1);
      }
      if Size(WidthU(offset)) == Size(w) { return w; }
      w := w + 1;
    }
    OffsetBounds(bufSize, idx, u, 3);
    assert false;
  }
}

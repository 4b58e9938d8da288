/** Bit arithmetic, little-endian scalars and padding: the ground floor of the
    FlatBuffers wire format (base.h). Machine words are naturals with their
    width written out, so that wrap-around is explicit. */
module Bytes {

  type Byte = x: int | 0 <= x < 256

  datatype Option<+T> = None | Some(value: T) {
    predicate IsFailure() { None? }
    function PropagateFailure<U>(): Option<U>
      requires None?
    {
      None
    }
    function Extract(): T
      requires Some?
    {
      value
    }
  }

  const TWO16: nat := 0x1_0000
  const TWO31: nat := 0x8000_0000
  const TWO32: nat := 0x1_0000_0000
  const TWO64: nat := 0x1_0000_0000_0000_0000

  /** FLATBUFFERS_MAX_BUFFER_SIZE: offsets are signed 32-bit. */
  const MAX_BUFFER_SIZE: nat := 0x7FFF_FFFF

  function Pow2(k: nat): (r: nat)
    ensures r >= 1
  {
    if k == 0 then 1 else 2 * Pow2(k - 1)
  }

  function Pow256(w: nat): (r: nat)
    ensures r >= 1
  {
    if w == 0 then 1 else 256 * Pow256(w - 1)
  }

  function Max(a: nat, b: nat): nat { if a < b then b else a }

  // ---------------------------------------------------------------------
  // Bitwise operators on naturals

  function BitAnd(a: nat, b: nat): nat { if a == 1 && b == 1 then 1 else 0 }

  /** Bitwise AND of two machine words. */
  function And(a: nat, b: nat): nat
    decreases a
  {
    if a == 0 || b == 0 then 0 else 2 * And(a / 2, b / 2) + BitAnd(a % 2, b % 2)
  }

  /** Bitwise complement of a 64-bit word. */
  function Not64(a: nat): nat
    requires a < TWO64
  {
    TWO64 - 1 - a
  }

  /** A word splits into its bits under a mask and under the complement. */
  lemma {:induction false} AndSplit(x: nat, m: nat, j: nat)
    requires x < Pow2(j) && m < Pow2(j)
    ensures And(x, m) + And(x, Pow2(j) - 1 - m) == x
    decreases j
  {
    if j > 0 && x > 0 {
      var p := Pow2(j - 1);
      AndSplit(x / 2, m / 2, j - 1);
      var c := 2 * p - 1 - m;
      assert c / 2 == p - 1 - m / 2 && c % 2 == 1 - m % 2;
      AndStep(x, m);
      AndStep(x, c);
    }
  }

  lemma AndStep(a: nat, b: nat)
    ensures And(a, b) == 2 * And(a / 2, b / 2) + BitAnd(a % 2, b % 2)
  {
    if a == 0 || b == 0 {
      assert And(a / 2, b / 2) == 0;
    }
  }

  /** Masking with 2^k - 1 takes the remainder by 2^k. */
  lemma {:induction false} AndLowMask(x: nat, k: nat)
    ensures And(x, Pow2(k) - 1) == x % Pow2(k)
  {
    if k == 0 {
    } else if x == 0 {
    } else {
      var p := Pow2(k - 1);
      AndLowMask(x / 2, k - 1);
      assert (2 * p - 1) / 2 == p - 1 && (2 * p - 1) % 2 == 1;
      HalfMod(x, p);
    }
  }

  lemma HalfMod(x: nat, p: nat)
    requires p >= 1
    ensures x % (2 * p) == 2 * ((x / 2) % p) + x % 2
  {
    var h := x / 2;
    var q, r := h / p, h % p;
    assert h == p * q + r;
    assert x == 2 * (p * q + r) + x % 2;
    assert x == (2 * p) * q + (2 * r + x % 2) by {
      assert 2 * (p * q) == (2 * p) * q;
    }
    ModUnique(x, 2 * p, q, 2 * r + x % 2);
  }

  lemma DivMod(x: int, m: nat)
    requires m >= 1
    ensures x == m * (x / m) + x % m && 0 <= x % m < m
  {
  }

  lemma ModUnique(x: int, m: nat, q: int, r: nat)
    requires m >= 1 && x == m * q + r && r < m
    ensures x % m == r && x / m == q
  {
    DivMod(x, m);
    var a := x / m;
    if a < q {
      assert m * (a + 1) == m * a + m;
      MulMono(m, a + 1, q);
    } else if q < a {
      assert m * (q + 1) == m * q + m;
      MulMono(m, q + 1, a);
    }
  }

  lemma MulMono(m: nat, a: int, b: int)
    requires a <= b
    ensures m * a <= m * b
  {
    assert m * (b - a) >= 0;
    assert m * (b - a) == m * b - m * a;
  }

  // ---------------------------------------------------------------------
  // Little-endian scalars

  /** The w bytes WriteScalar stores for v, least significant first;
      higher bits of v are dropped, as a narrowing cast drops them. */
  function Le(v: nat, w: nat): (s: seq<Byte>)
    ensures |s| == w
    decreases w
  {
    if w == 0 then [] else [v % 256] + Le(v / 256, w - 1)
  }

  /** The unsigned value ReadScalar reads from a run of bytes. */
  function De(s: seq<Byte>): (v: nat)
  {
    if s == [] then 0 else s[0] + 256 * De(s[1..])
  }

  /** Byte i of a scalar is its i-th digit to the base 256, lowest first. */
  lemma {:induction false} LeDigit(v: nat, w: nat, i: nat)
    requires i < w
    ensures Le(v, w)[i] == v / Pow256(i) % 256
    decreases w
  {
    if i > 0 {
      LeDigit(v / 256, w - 1, i - 1);
      DivDiv(v, Pow256(i - 1));
    }
  }

  lemma DivDiv(v: nat, p: nat)
    requires p >= 1
    ensures v / 256 / p == v / (256 * p)
  {
    var h := v / 256;
    var q, r := h / p, h % p;
    DivMod(h, p);
    assert (256 * p) * q == 256 * (p * q);
    ModUnique(v, 256 * p, q, 256 * r + v % 256);
  }

  /** Reading undoes writing, for every value that fits the width. */
  lemma {:induction false} DeLe(v: nat, w: nat)
    requires v < Pow256(w)
    ensures De(Le(v, w)) == v
    decreases w
  {
    if w > 0 {
      DeLe(v / 256, w - 1);
      assert Le(v, w)[1..] == Le(v / 256, w - 1);
    }
  }

  /** Writing undoes reading, so the representation is unique. */
  lemma {:induction false} LeDe(s: seq<Byte>)
    ensures De(s) < Pow256(|s|)
    ensures Le(De(s), |s|) == s
  {
    if s != [] {
      LeDe(s[1..]);
      ModUnique(De(s), 256, De(s[1..]), s[0]);
      assert s == [s[0]] + s[1..];
    }
  }

  lemma Widths()
    ensures Pow256(1) == 0x100 && Pow256(2) == TWO16 && Pow256(4) == TWO32 && Pow256(8) == TWO64
  {
    assert Pow256(2) == 256 * Pow256(1);
    assert Pow256(4) == 256 * Pow256(3) && Pow256(3) == 256 * Pow256(2);
    assert Pow256(6) == 256 * Pow256(5) && Pow256(5) == 256 * Pow256(4);
    assert Pow256(8) == 256 * Pow256(7) && Pow256(7) == 256 * Pow256(6);
  }

  /** Two's complement: the 32-bit pattern of a signed value, and back. */
  function ToU32(x: int): (r: nat)
    ensures r < TWO32
  {
    x % TWO32
  }

  function FromU32(u: nat): int {
    if u < TWO31 then u else u - TWO32
  }

  lemma SignedRoundTrip(x: int)
    requires -0x8000_0000 <= x < 0x8000_0000
    ensures FromU32(ToU32(x)) == x
  {
    if x < 0 {
      ModUnique(x, TWO32, -1, x + TWO32);
    }
  }

  lemma SliceLeft(a: seq<Byte>, b: seq<Byte>, i: nat, j: nat)
    requires i <= j <= |a|
    ensures (a + b)[i..j] == a[i..j]
  {
  }

  lemma SliceRight(a: seq<Byte>, b: seq<Byte>, i: nat, j: nat)
    requires i <= j <= |b|
    ensures (a + b)[|a| + i..|a| + j] == b[i..j]
  {
  }

  lemma SliceSlice(a: seq<Byte>, i: nat, j: nat, k: nat, l: nat)
    requires i <= j <= |a| && k <= l <= j - i
    ensures a[i..j][k..l] == a[i + k..i + l]
  {
    forall x | 0 <= x < l - k
      ensures a[i..j][k..l][x] == a[i + k..i + l][x]
    {
    }
  }

  function Zeros(n: nat): (s: seq<Byte>)
    ensures |s| == n && forall i :: 0 <= i < n ==> s[i] == 0
  {
    seq(n, _ => 0)
  }

  // ---------------------------------------------------------------------
  // Padding

  /** n is a multiple of w. */
  predicate Mult(n: int, w: nat) { w >= 1 && n % w == 0 }

  predicate IsAlign(a: nat) { a == 1 || a == 2 || a == 4 || a == 8 }

  /** base.h PaddingBytes: ((~buf_size) + 1) & (scalar_size - 1) on size_t. */
  function PaddingBytes(bufSize: nat, scalarSize: nat): nat
    requires bufSize < TWO64 && scalarSize >= 1
  {
    And((Not64(bufSize) + 1) % TWO64, scalarSize - 1)
  }

  /** The number of bytes that brings n up to the next multiple of s. */
  function Padding(n: nat, s: nat): (p: nat)
    requires s >= 1
    ensures p < s
  {
    (0 - n) % s
  }

  lemma Pow2Divides64(k: nat)
    requires k <= 64
    ensures TWO64 == Pow2(k) * Pow2(64 - k)
  {
    Pow2Add(k, 64 - k);
    Pow2Of64();
  }

  lemma {:induction false} Pow2Add(a: nat, b: nat)
    ensures Pow2(a + b) == Pow2(a) * Pow2(b)
  {
    if a > 0 {
      Pow2Add(a - 1, b);
      assert 2 * (Pow2(a - 1) * Pow2(b)) == (2 * Pow2(a - 1)) * Pow2(b);
    }
  }

  lemma Pow2Of8()
    ensures Pow2(8) == 0x100
  {
    assert Pow2(4) == 16 && Pow2(6) == 4 * Pow2(4);
  }

  lemma Pow2Of32()
    ensures Pow2(8) == 0x100 && Pow2(16) == TWO16 && Pow2(32) == TWO32
  {
    hide Pow2;
    Pow2Of8();
    Pow2Add(8, 8);
    Pow2Add(16, 16);
  }

  lemma Pow2Of64()
    ensures Pow2(64) == TWO64
  {
    hide Pow2;
    Pow2Of32();
    Pow2Add(32, 32);
  }

  /** The bit trick computes exactly the modular padding, for every
      power-of-two alignment, and padding reaches a multiple of it. */
  lemma PaddingBytesCorrect(n: nat, k: nat)
    requires n < TWO64 && k <= 64
    ensures PaddingBytes(n, Pow2(k)) == Padding(n, Pow2(k))
    ensures (n + PaddingBytes(n, Pow2(k))) % Pow2(k) == 0
  {
    AndLowMask((Not64(n) + 1) % TWO64, k);
    NegModPow2(n, k);
    PaddingAligns(n, Pow2(k));
  }

  /** Two's complement negation agrees with negation modulo any divisor of 2^64. */
  lemma NegMod(n: nat, m: nat, c: nat)
    requires n < TWO64 && m >= 1 && TWO64 == m * c
    ensures ((Not64(n) + 1) % TWO64) % m == (0 - n) % m
  {
    if n > 0 {
      var neg := TWO64 - n;
      DivMod(neg, m);
      assert m * (neg / m - c) == m * (neg / m) - m * c;
      ModUnique(0 - n, m, neg / m - c, neg % m);
    }
  }

  lemma NegModPow2(n: nat, k: nat)
    requires n < TWO64 && k <= 64
    ensures ((Not64(n) + 1) % TWO64) % Pow2(k) == (0 - n) % Pow2(k)
  {
    Pow2Divides64(k);
    NegMod(n, Pow2(k), Pow2(64 - k));
  }

  lemma PaddingAligns(n: nat, s: nat)
    requires s >= 1
    ensures (n + Padding(n, s)) % s == 0
  {
    var q, r := (0 - n) / s, (0 - n) % s;
    DivMod(0 - n, s);
    assert n + r == s * (-q) + 0;
    ModUnique(n + r, s, -q, 0);
  }
}

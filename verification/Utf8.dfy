/** UTF-8 conversion of util.h: ToUTF8 and FromUTF8 undo each other on exactly
    the Unicode scalar values (section 3 of RFC 3629). */
module Utf8 {
  import opened Bytes

  // ---------------------------------------------------------------------
  // Bits

  function Or(a: nat, b: nat): int {
    a + b - And(a, b)
  }

  /** A word whose low k bits are clear shares no bit with one below 2^k. */
  lemma {:induction false} AndDisjoint(a: nat, k: nat, x: nat)
    requires x < Pow2(k)
    ensures And(a * Pow2(k), x) == 0
    decreases k
  {
    if k > 0 {
      var y := a * Pow2(k);
      assert y == 2 * (a * Pow2(k - 1));
      AndStep(y, x);
      AndDisjoint(a, k - 1, x / 2);
    }
  }

  lemma AndOne(x: nat)
    ensures And(x, 1) == x % 2
  {
    AndStep(x, 1);
    assert And(x / 2, 0) == 0;
  }

  lemma {:induction false} AndBit(x: nat, k: nat)
    ensures And(x, Pow2(k)) == Pow2(k) * ((x / Pow2(k)) % 2)
  {
    hide And;
    if k == 0 {
      AndOne(x);
    } else {
      var p := Pow2(k - 1);
      AndStep(x, 2 * p);
      assert (2 * p) / 2 == p && (2 * p) % 2 == 0;
      AndBit(x / 2, k - 1);
      DivDiv(x, p);
      MulAssoc(p, ((x / 2) / p) % 2);
    }
  }

  lemma MulAssoc(p: nat, y: int)
    ensures 2 * (p * y) == (2 * p) * y
  {
  }

  lemma DivDiv(x: nat, p: nat)
    requires p >= 1
    ensures x / (2 * p) == (x / 2) / p
  {
    var q, r := (x / 2) / p, (x / 2) % p;
    DivMod(x / 2, p);
    assert x == (2 * p) * q + (2 * r + x % 2) by { assert 2 * (p * q) == (2 * p) * q; }
    ModUnique(x, 2 * p, q, 2 * r + x % 2);
  }

  lemma Low6(b: Byte)
    ensures And(b, 0x3F) == b % 64 && And(b, 0xC0) == b - b % 64
  {
    assert Pow2(6) == 64 && Pow2(8) == 256;
    AndLowMask(b, 6);
    AndSplit(b, 0x3F, 8);
  }

  // ---------------------------------------------------------------------
  // The encoding

  function Pow64(k: nat): (p: nat)
    ensures p >= 1
  {
    if k == 0 then 1 else 64 * Pow64(k - 1)
  }

  /** Bytes after the first. */
  function Extra(c: nat): nat {
    if c < 0x80 then 0 else if c < 0x800 then 1 else if c < 0x10000 then 2
    else if c < 0x200000 then 3 else if c < 0x4000000 then 4 else 5
  }

  function Head(k: nat): nat {
    if k == 0 then 0 else if k == 1 then 0xC0 else if k == 2 then 0xE0
    else if k == 3 then 0xF0 else if k == 4 then 0xF8 else 0xFC
  }

  /** The low 6 * k bits of c, six to a byte. */
  function Tail(c: nat, k: nat): (s: seq<Byte>)
    ensures |s| == k
  {
    if k == 0 then [] else Tail(c / 64, k - 1) + [0x80 + c % 64]
  }

  function Encode(c: nat): (s: seq<Byte>)
    requires c < TWO31
    ensures |s| == Extra(c) + 1
  {
    Pows64();
    [Head(Extra(c)) + c / Pow64(Extra(c))] + Tail(c, Extra(c))
  }

  lemma Pows64()
    ensures Pow64(1) == 0x40 && Pow64(2) == 0x1000 && Pow64(3) == 0x40000
    ensures Pow64(4) == 0x1000000 && Pow64(5) == 0x40000000
  {
    assert Pow64(2) == 64 * Pow64(1);
    assert Pow64(4) == 64 * Pow64(3) && Pow64(3) == 64 * Pow64(2);
    assert Pow64(5) == 64 * Pow64(4);
  }

  /** Unicode scalar values. */
  predicate Scalar(c: nat) { c < 0xD800 || 0xE000 <= c < 0x110000 }

  // ---------------------------------------------------------------------
  // Decoding, by the rules of FromUTF8

  datatype Decoded = Decoded(code: nat, len: nat)

  predicate Continues(b: Byte) { 0x80 <= b < 0xC0 }

  /** Leading one bits, at most six. */
  function Ones(b: Byte): nat {
    if b < 0x80 then 0 else if b < 0xC0 then 1 else if b < 0xE0 then 2 else if b < 0xF0 then 3
    else if b < 0xF8 then 4 else if b < 0xFC then 5 else 6
  }

  function Collect(acc: nat, s: seq<Byte>, k: nat): Option<nat>
    decreases k
  {
    if k == 0 then Some(acc)
    else if s == [] || !Continues(s[0]) then None
    else Collect(acc * 64 + s[0] % 64, s[1..], k - 1)
  }

  /** Shortest form and no surrogate. */
  predicate Accepted(c: nat, len: nat) {
    Scalar(c) && Extra(c) + 1 == len
  }

  function Decode(s: seq<Byte>): Option<Decoded>
    requires s != []
  {
    var len := Ones(s[0]);
    if len == 0 then Some(Decoded(s[0], 1))
    else if len < 2 || len > 4 then None
    else
      var c :- Collect(s[0] % Pow2(7 - len), s[1..], len - 1);
      if Accepted(c, len) then Some(Decoded(c, len)) else None
  }

  // ---------------------------------------------------------------------
  // Decode inverts Encode, and nothing else

  /** Collecting a tail shifts it into the accumulator. */
  lemma {:induction false} CollectTail(acc: nat, c: nat, k: nat, rest: seq<Byte>)
    ensures Collect(acc, Tail(c, k) + rest, k) == Some(acc * Pow64(k) + c % Pow64(k))
    decreases k
  {
    if k > 0 {
      var last := [0x80 + c % 64] + rest;
      CollectSplit(acc, Tail(c / 64, k - 1), last, k - 1);
      assert Tail(c, k) + rest == Tail(c / 64, k - 1) + last;
      CollectTail(acc, c / 64, k - 1, last);
      CollectOne(acc * Pow64(k - 1) + (c / 64) % Pow64(k - 1), c, rest);
      ShiftIn(acc, c, Pow64(k - 1));
    }
  }

  lemma CollectOne(acc: nat, c: nat, rest: seq<Byte>)
    ensures Collect(acc, [0x80 + c % 64] + rest, 1) == Some(acc * 64 + c % 64)
  {
    assert (0x80 + c % 64) % 64 == c % 64;
  }

  lemma ShiftIn(acc: nat, c: nat, p: nat)
    requires p >= 1
    ensures (acc * p + (c / 64) % p) * 64 + c % 64 == acc * (64 * p) + c % (64 * p)
  {
    Mod64(c, p);
    var m := (c / 64) % p;
    assert (acc * p + m) * 64 == acc * p * 64 + m * 64;
    assert acc * p * 64 == acc * (64 * p);
  }

  lemma Mod64(c: nat, p: nat)
    requires p >= 1
    ensures c % (64 * p) == 64 * ((c / 64) % p) + c % 64
  {
    var q, r := (c / 64) / p, (c / 64) % p;
    DivMod(c / 64, p);
    assert 64 * (p * q) == (64 * p) * q;
    ModUnique(c, 64 * p, q, 64 * r + c % 64);
  }

  /** Collecting k + 1 bytes is collecting k, then one. */
  lemma {:induction false} CollectSplit(acc: nat, a: seq<Byte>, b: seq<Byte>, k: nat)
    requires |a| == k && b != []
    ensures Collect(acc, a + b, k + 1) ==
      match Collect(acc, a + b, k)
      case None => None
      case Some(c) => Collect(c, b, 1)
    decreases k
  {
    if k == 0 {
      assert a + b == b;
    } else {
      assert (a + b)[1..] == a[1..] + b;
      CollectSplit(acc * 64 + a[0] % 64, a[1..], b, k - 1);
    }
  }

  lemma HeadByte(c: nat)
    requires Scalar(c)
    ensures var k := Extra(c);
      var b := Encode(c)[0];
      k <= 3 && Ones(b) == (if k == 0 then 0 else k + 1) && (k > 0 ==> b % Pow2(6 - k) == c / Pow64(k))
  {
    Pows64();
    assert Pow2(5) == 32 && Pow2(4) == 16 && Pow2(3) == 8;
  }

  /** Whatever follows, an encoded scalar value decodes to itself, and the
      decoder has advanced past exactly its bytes. */
  lemma DecodeEncode(c: nat, rest: seq<Byte>)
    requires Scalar(c)
    ensures Decode(Encode(c) + rest) == Some(Decoded(c, |Encode(c)|))
  {
    var k := Extra(c);
    HeadByte(c);
    var s := Encode(c) + rest;
    assert s[0] == Encode(c)[0];
    if k > 0 {
      assert s[1..] == Tail(c, k) + rest;
      CollectTail(c / Pow64(k), c, k, rest);
      DivMod(c, Pow64(k));
    }
  }

  /** What collecting read, written again, is what was there. */
  lemma {:induction false} TailCollect(acc: nat, s: seq<Byte>, k: nat)
    requires k <= |s| && Collect(acc, s, k).Some?
    ensures var c := Collect(acc, s, k).value;
      Tail(c, k) == s[..k] && c / Pow64(k) == acc
    decreases k
  {
    if k > 0 {
      CollectSplit(acc, s[..k - 1], s[k - 1..], k - 1);
      assert s == s[..k - 1] + s[k - 1..];
      TailCollect(acc, s, k - 1);
      var c, d := Collect(acc, s, k).value, Collect(acc, s, k - 1).value;
      CollectLast(d, s[k - 1..], c);
      assert s[..k] == s[..k - 1] + [s[k - 1]];
      Div64(c, Pow64(k - 1));
    }
  }

  lemma CollectLast(d: nat, s: seq<Byte>, c: nat)
    requires s != [] && Collect(d, s, 1) == Some(c)
    ensures c / 64 == d && 0x80 + c % 64 == s[0]
  {
    assert c == d * 64 + s[0] % 64;
  }

  lemma Div64(c: nat, p: nat)
    requires p >= 1
    ensures c / (64 * p) == (c / 64) / p
  {
    var q, r := (c / 64) / p, (c / 64) % p;
    DivMod(c / 64, p);
    assert 64 * (p * q) == (64 * p) * q;
    ModUnique(c, 64 * p, q, 64 * r + c % 64);
  }

  lemma {:induction false} CollectLength(acc: nat, s: seq<Byte>, k: nat)
    requires Collect(acc, s, k).Some?
    ensures k <= |s|
    decreases k
  {
    if k > 0 { CollectLength(acc * 64 + s[0] % 64, s[1..], k - 1); }
  }

  /** Only the encoding of a scalar value is accepted: no overlong form, no
      surrogate, nothing beyond U+10FFFF. */
  lemma EncodeDecode(s: seq<Byte>)
    requires s != [] && Decode(s).Some?
    ensures var d := Decode(s).value;
      Scalar(d.code) && d.len <= |s| && Encode(d.code) == s[..d.len]
  {
    var d := Decode(s).value;
    var len := Ones(s[0]);
    if len > 0 {
      var k := len - 1;
      CollectLength(s[0] % Pow2(7 - len), s[1..], k);
      TailCollect(s[0] % Pow2(7 - len), s[1..], k);
      FirstByte(s[0]);
      assert s[..len] == [s[0]] + s[1..][..k];
    }
  }

  lemma FirstByte(b: Byte)
    requires 2 <= Ones(b) <= 4
    ensures Head(Ones(b) - 1) + b % Pow2(7 - Ones(b)) == b
  {
    assert Pow2(5) == 32 && Pow2(4) == 16 && Pow2(3) == 8;
  }

  /** Together: the decoder accepts exactly the inputs that begin with the
      encoding of a scalar value. */
  lemma DecodeExact(s: seq<Byte>)
    requires s != []
    ensures Decode(s).Some? <==> exists c :: Scalar(c) && Encode(c) <= s
  {
    if Decode(s).Some? {
      EncodeDecode(s);
      assert Scalar(Decode(s).value.code) && Encode(Decode(s).value.code) <= s;
    }
    forall c | Scalar(c) && Encode(c) <= s ensures Decode(s).Some? {
      DecodeEncode(c, s[|Encode(c)|..]);
      assert s == Encode(c) + s[|Encode(c)|..];
    }
  }

  // ---------------------------------------------------------------------
  // Streams

  predicate AllScalars(cs: seq<nat>) {
    forall k :: 0 <= k < |cs| ==> Scalar(cs[k])
  }

  function EncodeAll(cs: seq<nat>): seq<Byte>
    requires AllScalars(cs)
  {
    if cs == [] then [] else Encode(cs[0]) + EncodeAll(cs[1..])
  }

  /** Repeated FromUTF8 to the end of the input. */
  function DecodeAll(s: seq<Byte>): Option<seq<nat>>
    decreases |s|
  {
    if s == [] then Some([]) else
    var d :- Decode(s);
    if d.len == 0 || d.len > |s| then None else
    var rest :- DecodeAll(s[d.len..]);
    Some([d.code] + rest)
  }

  /** Any sequence of scalar values survives the round trip. */
  lemma {:induction false} StreamRoundTrip(cs: seq<nat>)
    requires AllScalars(cs)
    ensures DecodeAll(EncodeAll(cs)) == Some(cs)
  {
    hide Decode, Encode;
    if cs != [] {
      var rest := EncodeAll(cs[1..]);
      DecodeEncode(cs[0], rest);
      StreamRoundTrip(cs[1..]);
      assert (Encode(cs[0]) + rest)[|Encode(cs[0])|..] == rest;
      assert cs == [cs[0]] + cs[1..];
    }
  }

  /** And any input that decodes is the encoding of what it decodes to. */
  lemma {:induction false} StreamExact(s: seq<Byte>)
    requires DecodeAll(s).Some?
    ensures var cs := DecodeAll(s).value;
      AllScalars(cs) && EncodeAll(cs) == s
    decreases |s|
  {
    hide Decode, Encode, Scalar;
    if s != [] {
      var d := Decode(s).value;
      EncodeDecode(s);
      StreamExact(s[d.len..]);
      assert s == s[..d.len] + s[d.len..];
      assert DecodeAll(s).value[1..] == DecodeAll(s[d.len..]).value;
    }
  }

  // ---------------------------------------------------------------------
  // The loops of util.h

  /** max_bits of the i-th form. */
  function MaxBits(i: nat): nat { 6 + i * 5 + if i == 0 then 1 else 0 }

  lemma DivNat(c: nat, p: nat)
    requires p >= 1
    ensures c / p >= 0
  {
  }

  function Shr(c: nat, k: nat): nat {
    DivNat(c, Pow2(k));
    c / Pow2(k)
  }

  /** The first byte as the source computes it from the shifted code, shift and
      OR in an 8-bit char; m is max_bits - remain_bits. */
  function FirstChar(x: nat, m: nat): int {
    Or((0xFE * Pow2(m)) % 256, x)
  }

  lemma Pow2Is64(k: nat)
    ensures Pow2(6 * k) == Pow64(k)
  {
    if k > 0 {
      Pow2Is64(k - 1);
      Pow2Add(6, 6 * (k - 1));
      assert Pow2(6) == 64;
    }
  }

  lemma SmallPows()
    ensures Pow2(1) == 2 && Pow2(2) == 4 && Pow2(3) == 8 && Pow2(4) == 16 && Pow2(5) == 32 && Pow2(6) == 64 && Pow2(7) == 128
    ensures Pow2(11) == 0x800 && Pow2(16) == 0x10000 && Pow2(21) == 0x200000 && Pow2(26) == 0x4000000 && Pow2(31) == TWO31
  {
    Pow2Add(5, 6);
    Pow2Add(5, 11);
    Pow2Add(5, 16);
    Pow2Add(5, 21);
    Pow2Add(5, 26);
  }

  lemma HeadBits(i: nat)
    requires i <= 5
    ensures var m := MaxBits(i) - 6 * i;
      1 <= m <= 7 && (0xFE * Pow2(m)) % 256 == Head(i) && Head(i) == (Head(i) / Pow2(m)) * Pow2(m)
  {
    SmallPows();
  }

  lemma CodeBits(c: nat, i: nat)
    requires i <= 5 && c < Pow2(MaxBits(i))
    ensures Shr(c, 6 * i) == c / Pow64(i) < Pow2(MaxBits(i) - 6 * i)
  {
    Pow2Is64(i);
    SmallPows();
    Pows64();
  }

  /** It is the head of the form plus the high bits of the code. */
  lemma FirstCharExact(c: nat, i: nat)
    requires i <= 5 && c < Pow2(MaxBits(i)) && MaxBits(i) >= 6 * i
    ensures FirstChar(Shr(c, 6 * i), MaxBits(i) - 6 * i) == Head(i) + c / Pow64(i)
  {
    hide And, Pow2, Pow64, Head, Shr, MaxBits;
    HeadBits(i);
    CodeBits(c, i);
    var m := MaxBits(i) - 6 * i;
    AndDisjoint(Head(i) / Pow2(m), m, Shr(c, 6 * i));
  }

  /** A continuation byte as the source computes it from the shifted code. */
  function NextChar(x: nat): int {
    Or(And(x, 0x3F), 0x80)
  }

  lemma NextCharExact(c: nat, j: nat)
    ensures NextChar(Shr(c, 6 * j)) == 0x80 + (c / Pow64(j)) % 64
  {
    hide And, Pow64;
    Pow2Is64(j);
    Mask6(Shr(c, 6 * j));
  }

  lemma Mask6(x: nat)
    ensures And(x, 0x3F) == x % 64 && And(x % 64, 0x80) == 0
  {
    hide And;
    SmallPows();
    AndLowMask(x, 6);
    AndBit(x % 64, 7);
  }

  lemma {:induction false} TailAt(c: nat, k: nat, j: nat)
    requires j < k
    ensures Tail(c, k)[k - 1 - j] == 0x80 + (c / Pow64(j)) % 64
    decreases j
  {
    if j > 0 {
      TailAt(c / 64, k - 1, j - 1);
      Div64(c, Pow64(j - 1));
    }
  }

  /** The inner loop of ToUTF8: six bits to a byte, from the top. */
  method WriteTail(ucc: nat, i: nat, text: seq<Byte>) returns (out: seq<Byte>)
    ensures out == text + Tail(ucc, i)
  {
    hide NextChar;
    out := text;
    var j := i;
    while j > 0
      invariant 0 <= j <= i && out == text + Tail(ucc, i)[..i - j]
    {
      j := j - 1;
      NextCharExact(ucc, j);
      TailAt(ucc, i, j);
      out := out + [NextChar(Shr(ucc, 6 * j))];
    }
  }

  lemma EncodeParts(c: nat)
    requires c < TWO31
    ensures 0 <= Head(Extra(c)) + c / Pow64(Extra(c)) < 256
    ensures Encode(c) == [Head(Extra(c)) + c / Pow64(Extra(c))] + Tail(c, Extra(c))
  {
    Pows64();
  }

  /** ToUTF8; the source asserts that the top bit is clear. */
  method ToUTF8(ucc: nat, text: seq<Byte>) returns (out: seq<Byte>, n: nat)
    requires ucc < TWO31
    ensures out == text + Encode(ucc) && n == |Encode(ucc)|
  {
    hide And, Or, FirstChar, NextChar, Tail, Encode, Head, Pow64;
    SmallPows();
    for i := 0 to 6
      invariant forall k :: 0 <= k < i ==> ucc >= Pow2(MaxBits(k))
    {
      if ucc < Pow2(MaxBits(i)) {
        assert Extra(ucc) == i by { if i > 0 { assert ucc >= Pow2(MaxBits(i - 1)); } }
        FirstCharExact(ucc, i);
        EncodeParts(ucc);
        out := text + [FirstChar(Shr(ucc, 6 * i), MaxBits(i) - 6 * i)];
        out := WriteTail(ucc, i, out);
        n := i + 1;
        return;
      }
    }
    TopBit(ucc);
    assert false;
  }

  lemma TopBit(c: nat)
    requires c < TWO31
    ensures c < Pow2(MaxBits(5))
  {
    SmallPows();
  }

  /** The loop that counts leading ones, and the test of the bit after them. */
  method LeadingOnes(b: Byte) returns (len: nat, bad: bool)
    ensures len == Ones(b) && bad == (b >= 0xFE) && (bad ==> len == 6)
  {
    hide And, Pow2;
    len := 0;
    var mask := 7;
    while mask >= 2 && And(b, Pow2(mask)) != 0
      invariant 1 <= mask <= 7 && len == 7 - mask
      invariant b >= 256 - 2 * Bit(mask)
      decreases mask
    {
      BitTest(b, mask);
      len := len + 1;
      mask := mask - 1;
    }
    BitTest(b, mask);
    BitAfter(b, len);
    bad := And(b * Pow2(len), 0x80) != 0;
  }

  function Bit(k: nat): nat {
    if k == 1 then 2 else if k == 2 then 4 else if k == 3 then 8 else if k == 4 then 16
    else if k == 5 then 32 else if k == 6 then 64 else 128
  }

  /** With all higher bits set, a bit is set if the byte is large enough. */
  lemma BitTest(b: Byte, k: nat)
    requires 1 <= k <= 7 && b >= 256 - 2 * Bit(k)
    ensures And(b, Pow2(k)) != 0 <==> b >= 256 - Bit(k)
  {
    SmallPows();
    hide And, Pow2;
    AndBit(b, k);
    assert Pow2(k) == Bit(k);
    BitValue(b, k);
  }

  lemma BitValue(b: Byte, k: nat)
    requires 1 <= k <= 7 && b >= 256 - 2 * Bit(k)
    ensures (b / Bit(k)) % 2 == if b >= 256 - Bit(k) then 1 else 0
  {
  }

  lemma BitAfter(b: Byte, len: nat)
    requires len == Ones(b)
    ensures And(b * Pow2(len), 0x80) != 0 <==> b >= 0xFE
  {
    assert Pow2(0) == 1;
    SmallPows();
    hide And, Pow2;
    AndBit(b * Pow2(len), 7);
    ShiftedBit(b, Pow2(len));
  }

  lemma ShiftedBit(b: Byte, p: nat)
    requires match Ones(b)
      case 0 => p == 1
      case 1 => p == 2
      case 2 => p == 4
      case 3 => p == 8
      case 4 => p == 16
      case 5 => p == 32
      case _ => p == 64
    ensures (b * p / 128) % 2 == if b >= 0xFE then 1 else 0
  {
  }

  /** FromUTF8 on a NUL-terminated string: a missing byte reads as NUL, which
      ends the sequence. Returns -1 or the code, and where it ends. */
  method FromUTF8(s: seq<Byte>, at: nat) returns (ucc: int, end: nat)
    requires at < |s|
    ensures at <= end <= |s|
    ensures match Decode(s[at..])
      case None => ucc == -1
      case Some(d) => ucc == d.code && end == at + d.len
  {
    hide And, Accepted, Pow2, Ones;
    var b := s[at];
    var len, bad := LeadingOnes(b);
    if bad { return -1, at; }
    if len == 0 { return b, at + 1; }
    if len < 2 || len > 4 { return -1, at; }
    ucc := And(b, Pow2(7 - len) - 1);
    AndLowMask(b, 7 - len);
    end := at + 1;
    assert s[at..][1..] == s[end..];
    ghost var first := ucc;
    for i := 0 to len - 1
      invariant end == at + 1 + i <= |s| && ucc >= 0
      invariant Collect(first, s[at + 1..], len - 1) == Collect(ucc, s[end..], len - 1 - i)
    {
      var next := if end < |s| then s[end] else 0;
      Low6(next);
      if And(next, 0xC0) != 0x80 { return -1, at; }
      assert s[end..][1..] == s[end + 1..];
      ucc := ucc * 64 + And(next, 0x3F);
      end := end + 1;
    }
    AcceptedForms(ucc, len);
    if 0xD800 <= ucc <= 0xDFFF { return -1, at; }
    if len == 2 && (ucc < 0x80 || ucc > 0x7FF) { return -1, at; }
    if len == 3 && (ucc < 0x800 || ucc > 0xFFFF) { return -1, at; }
    if len == 4 && (ucc < 0x10000 || ucc > 0x10FFFF) { return -1, at; }
  }

  /** The source's range checks are the shortest form and the scalar values. */
  lemma AcceptedForms(c: nat, len: nat)
    requires 2 <= len <= 4
    ensures Accepted(c, len) <==>
      !(0xD800 <= c <= 0xDFFF)
      && (if len == 2 then 0x80 <= c <= 0x7FF else if len == 3 then 0x800 <= c <= 0xFFFF else 0x10000 <= c <= 0x10FFFF)
  {
  }
}

/** EscapeString of util.h writes a JSON string (section 7 of RFC 8259) that
    decodes to the code points of its input. */
module Escape {
  import opened Bytes
  import opened Utf8

  const QUOTE: Byte := 34
  const BACKSLASH: Byte := 92
  const LOWER_U: Byte := 117

  // ---------------------------------------------------------------------
  // Hexadecimal digits

  function HexDigit(d: nat): Byte
    requires d < 16
  {
    if d < 10 then 48 + d else 55 + d
  }

  function HexValue(b: Byte): Option<nat> {
    if 48 <= b <= 57 then Some(b - 48)
    else if 65 <= b <= 70 then Some(b - 55)
    else if 97 <= b <= 102 then Some(b - 87)
    else None
  }

  /** IntToStringHex(u, 4). */
  function Hex4(u: nat): (s: seq<Byte>)
    requires u < 0x10000
    ensures |s| == 4
  {
    [HexDigit(u / 0x1000), HexDigit(u / 0x100 % 16), HexDigit(u / 16 % 16), HexDigit(u % 16)]
  }

  /** IntToStringHex(u, 2). */
  function Hex2(u: Byte): seq<Byte> {
    [HexDigit(u / 16), HexDigit(u % 16)]
  }

  function FromHex4(s: seq<Byte>): Option<nat>
    requires |s| == 4
  {
    var a :- HexValue(s[0]);
    var b :- HexValue(s[1]);
    var c :- HexValue(s[2]);
    var d :- HexValue(s[3]);
    Some(((a * 16 + b) * 16 + c) * 16 + d)
  }

  lemma HexRoundTrip(u: nat)
    requires u < 0x10000
    ensures FromHex4(Hex4(u)) == Some(u)
  {
    hide HexDigit, HexValue;
    Digits4(u);
    DigitBack(u / 0x1000);
    DigitBack(u / 0x100 % 16);
    DigitBack(u / 16 % 16);
    DigitBack(u % 16);
  }

  lemma Digits4(u: nat)
    requires u < 0x10000
    ensures u / 0x1000 < 16
    ensures u == ((u / 0x1000 * 16 + u / 0x100 % 16) * 16 + u / 16 % 16) * 16 + u % 16
  {
    assert u / 16 / 16 == u / 0x100 && u / 0x100 / 16 == u / 0x1000;
  }

  lemma DigitBack(d: nat)
    requires d < 16
    ensures HexValue(HexDigit(d)) == Some(d)
  {
  }

  // ---------------------------------------------------------------------
  // JSON strings

  /** The character after a backslash, other than u. */
  function Short(b: Byte): Option<nat> {
    match b
    case 34 => Some(34)
    case 92 => Some(92)
    case 47 => Some(47)
    case 98 => Some(8)
    case 102 => Some(12)
    case 110 => Some(10)
    case 114 => Some(13)
    case 116 => Some(9)
    case _ => None
  }

  function Cons(c: nat, rest: Option<seq<nat>>): Option<seq<nat>> {
    match rest
    case None => None
    case Some(cs) => Some([c] + cs)
  }

  /** Six characters that start a text: a backslash, a u and four digits. */
  function Escaped(t: seq<Byte>): Option<nat> {
    if |t| < 6 || t[0] != BACKSLASH || t[1] != LOWER_U then None else FromHex4(t[2..6])
  }

  predicate High(u: nat) { 0xD800 <= u < 0xDC00 }

  predicate Low(u: nat) { 0xDC00 <= u < 0xE000 }

  /** The code points of a string after its opening quote, up to the closing
      quote, which must be the end. */
  function Body(t: seq<Byte>): Option<seq<nat>>
    decreases |t|
  {
    if t == [] then None
    else if t[0] == QUOTE then (if |t| == 1 then Some([]) else None)
    else if t[0] != BACKSLASH then
      var d :- Decode(t);
      if d.len == 0 || d.len > |t| || d.code < 0x20 then None else Cons(d.code, Body(t[d.len..]))
    else if |t| < 2 then None
    else if t[1] != LOWER_U then
      var c :- Short(t[1]);
      Cons(c, Body(t[2..]))
    else
      var u :- Escaped(t);
      if Low(u) then None
      else if !High(u) then Cons(u, Body(t[6..]))
      else
        var l :- Escaped(t[6..]);
        if !Low(l) then None else Cons(0x10000 + (u - 0xD800) * 0x400 + (l - 0xDC00), Body(t[12..]))
  }

  function JsonDecode(t: seq<Byte>): Option<seq<nat>> {
    if t == [] || t[0] != QUOTE then None else Body(t[1..])
  }

  // ---------------------------------------------------------------------
  // What EscapeString writes

  function ShortEscape(c: nat): Option<Byte> {
    match c
    case 10 => Some(110)
    case 9 => Some(116)
    case 13 => Some(114)
    case 8 => Some(98)
    case 12 => Some(102)
    case 34 => Some(34)
    case 92 => Some(92)
    case _ => None
  }

  predicate Printable(c: nat) { 0x20 <= c <= 0x7E }

  function U(u: nat): seq<Byte>
    requires u < 0x10000
  {
    [BACKSLASH, LOWER_U] + Hex4(u)
  }

  function EscapeCode(c: nat, natural: bool): seq<Byte>
    requires c < 0x110000
  {
    if ShortEscape(c).Some? then [BACKSLASH, ShortEscape(c).value]
    else if Printable(c) then [c]
    else if natural then Encode(c)
    else if c <= 0xFFFF then U(c)
    else U(0xD800 + (c - 0x10000) / 0x400) + U(0xDC00 + (c - 0x10000) % 0x400)
  }

  /** Input as code points, and bytes where no code point starts. */
  datatype Unit = Code(c: nat) | Raw(b: Byte)

  function Units(s: seq<Byte>): seq<Unit>
    decreases |s|
  {
    if s == [] then []
    else match Decode(s)
      case Some(d) => if 0 < d.len <= |s| then [Code(d.code)] + Units(s[d.len..]) else []
      case None => [Raw(s[0])] + Units(s[1..])
  }

  predicate UnitOk(u: Unit) { u.Code? ==> Scalar(u.c) }

  predicate AllOk(us: seq<Unit>) { forall k :: 0 <= k < |us| ==> UnitOk(us[k]) }

  predicate NoRaw(us: seq<Unit>) { forall k :: 0 <= k < |us| ==> us[k].Code? }

  function EscapeUnit(u: Unit, natural: bool): seq<Byte>
    requires UnitOk(u)
  {
    match u
    case Code(c) => EscapeCode(c, natural)
    case Raw(b) => [BACKSLASH, 120] + Hex2(b)
  }

  function EscapeUnits(us: seq<Unit>, natural: bool): seq<Byte>
    requires AllOk(us)
  {
    if us == [] then [] else EscapeUnit(us[0], natural) + EscapeUnits(us[1..], natural)
  }

  function EscapeAll(cs: seq<nat>, natural: bool): seq<Byte>
    requires AllScalars(cs)
  {
    if cs == [] then [] else EscapeCode(cs[0], natural) + EscapeAll(cs[1..], natural)
  }

  lemma DecodeAdvances(s: seq<Byte>)
    requires s != [] && Decode(s).Some?
    ensures 0 < Decode(s).value.len <= |s| && Scalar(Decode(s).value.code)
  {
    EncodeDecode(s);
  }

  lemma {:induction false} UnitsOk(s: seq<Byte>)
    ensures AllOk(Units(s))
    decreases |s|
  {
    hide Decode;
    if s != [] {
      if Decode(s).Some? {
        DecodeAdvances(s);
        UnitsOk(s[Decode(s).value.len..]);
      } else {
        UnitsOk(s[1..]);
      }
    }
  }

  /** The input is UTF-8 exactly if it has no raw unit. */
  lemma {:induction false} UnitsValid(s: seq<Byte>)
    ensures NoRaw(Units(s)) <==> DecodeAll(s).Some?
    ensures DecodeAll(s).Some? ==> AllScalars(DecodeAll(s).value) && AllOk(Units(s))
    ensures DecodeAll(s).Some? ==> forall n :: EscapeUnits(Units(s), n) == EscapeAll(DecodeAll(s).value, n)
    decreases |s|
  {
    hide Decode, EscapeCode;
    UnitsOk(s);
    if s != [] {
      if Decode(s).Some? {
        DecodeAdvances(s);
        var rest := s[Decode(s).value.len..];
        UnitsValid(rest);
        assert Units(s)[0].Code? && Units(s)[1..] == Units(rest);
        if DecodeAll(rest).Some? { assert DecodeAll(s).value[1..] == DecodeAll(rest).value; }
      } else {
        assert Units(s)[0].Raw?;
      }
    }
  }

  // ---------------------------------------------------------------------
  // The output decodes

  /** A control character that EscapeString would write unescaped. */
  predicate RawControl(c: nat) { c < 0x20 && ShortEscape(c).None? }

  lemma EscapedU(u: nat, t: seq<Byte>)
    requires u < 0x10000
    ensures Escaped(U(u) + t) == Some(u) && (U(u) + t)[6..] == t
  {
    assert (U(u) + t)[2..6] == Hex4(u);
    HexRoundTrip(u);
  }

  lemma BodyU(c: nat, t: seq<Byte>)
    requires Scalar(c) && c <= 0xFFFF
    ensures Body(U(c) + t) == Cons(c, Body(t))
  {
    hide Hex4, FromHex4, Escaped;
    EscapedU(c, t);
  }

  lemma BodyPair(c: nat, t: seq<Byte>)
    requires 0x10000 <= c < 0x110000
    ensures var b := c - 0x10000;
      Body(U(0xD800 + b / 0x400) + U(0xDC00 + b % 0x400) + t) == Cons(c, Body(t))
  {
    hide Hex4, FromHex4, Escaped;
    var h, l := 0xD800 + (c - 0x10000) / 0x400, 0xDC00 + (c - 0x10000) % 0x400;
    EscapedU(h, U(l) + t);
    EscapedU(l, t);
    var s := U(h) + U(l) + t;
    assert s == U(h) + (U(l) + t);
    assert s[12..] == s[6..][6..] == t;
  }

  lemma BodyShort(c: nat, t: seq<Byte>)
    requires ShortEscape(c).Some?
    ensures Body([BACKSLASH, ShortEscape(c).value] + t) == Cons(c, Body(t))
  {
    var s := [BACKSLASH, ShortEscape(c).value] + t;
    assert s[2..] == t;
  }

  lemma BodyPlain(c: nat, t: seq<Byte>)
    requires Scalar(c) && c != QUOTE && c != BACKSLASH
    ensures Body(Encode(c) + t) == if c < 0x20 then None else Cons(c, Body(t))
  {
    var s := Encode(c) + t;
    DecodeEncode(c, t);
    assert s[|Encode(c)|..] == t;
    assert s[0] == Encode(c)[0];
    if c >= 0x80 { HeadByte(c); }
  }

  /** One escaped code point reads back, unless it is a control character that
      went out unescaped. */
  lemma CodeDecodes(c: nat, natural: bool, t: seq<Byte>)
    requires Scalar(c)
    ensures Body(EscapeCode(c, natural) + t) == if natural && RawControl(c) then None else Cons(c, Body(t))
  {
    hide Body, U, Encode, Cons;
    if ShortEscape(c).Some? {
      BodyShort(c, t);
    } else if Printable(c) {
      BodyPlain(c, t);
      PlainAscii(c);
    } else if natural {
      BodyPlain(c, t);
    } else if c <= 0xFFFF {
      BodyU(c, t);
    } else {
      BodyPair(c, t);
    }
  }

  lemma PlainAscii(c: nat)
    requires c < 0x80
    ensures Encode(c) == [c]
  {
  }

  predicate HasRawControl(cs: seq<nat>) { exists k :: 0 <= k < |cs| && RawControl(cs[k]) }

  lemma {:induction false} BodyDecodes(cs: seq<nat>, natural: bool)
    requires AllScalars(cs)
    ensures Body(EscapeAll(cs, natural) + [QUOTE]) == if natural && HasRawControl(cs) then None else Some(cs)
  {
    hide Body, EscapeCode, RawControl;
    if cs == [] {
      assert EscapeAll(cs, natural) + [QUOTE] == [QUOTE];
      BodyEnd();
    } else {
      var rest := EscapeAll(cs[1..], natural) + [QUOTE];
      assert EscapeAll(cs, natural) + [QUOTE] == EscapeCode(cs[0], natural) + rest;
      CodeDecodes(cs[0], natural, rest);
      BodyDecodes(cs[1..], natural);
      assert cs == [cs[0]] + cs[1..];
      assert HasRawControl(cs) <==> RawControl(cs[0]) || HasRawControl(cs[1..]) by {
        if HasRawControl(cs[1..]) {
          var k :| 0 <= k < |cs[1..]| && RawControl(cs[1..][k]);
          assert RawControl(cs[k + 1]);
        }
      }
    }
  }

  lemma BodyEnd()
    ensures Body([QUOTE]) == Some([])
  {
  }

  lemma BodyRaw(b: Byte, t: seq<Byte>)
    ensures Body(EscapeUnit(Raw(b), false) + t) == None && EscapeUnit(Raw(b), true) == EscapeUnit(Raw(b), false)
  {
    var s := EscapeUnit(Raw(b), false) + t;
    assert s[0] == BACKSLASH && s[1] == 120;
  }

  /** A byte that is not UTF-8 goes out as an escape that JSON does not have. */
  lemma {:induction false} RawBreaks(us: seq<Unit>, natural: bool)
    requires AllOk(us) && !NoRaw(us)
    ensures Body(EscapeUnits(us, natural) + [QUOTE]) == None
  {
    hide Body, EscapeCode, RawControl, Hex2;
    var rest := EscapeUnits(us[1..], natural) + [QUOTE];
    assert EscapeUnits(us, natural) + [QUOTE] == EscapeUnit(us[0], natural) + rest;
    if us[0].Raw? {
      BodyRaw(us[0].b, rest);
    } else {
      var k :| 0 <= k < |us| && us[k].Raw?;
      assert us[1..][k - 1].Raw?;
      CodeDecodes(us[0].c, natural, rest);
      RawBreaks(us[1..], natural);
    }
  }

  /** What EscapeString writes when it succeeds. */
  function Text(s: seq<Byte>, natural: bool): seq<Byte> {
    UnitsOk(s);
    [QUOTE] + EscapeUnits(Units(s), natural) + [QUOTE]
  }

  /** For every input: what is written is a JSON string exactly if the input is
      UTF-8 and, writing natural UTF-8, no control character goes out unescaped;
      and then it is the string of the input's code points. */
  lemma EscapeFaithful(s: seq<Byte>, natural: bool)
    ensures JsonDecode(Text(s, natural)) ==
      if DecodeAll(s).Some? && !(natural && HasRawControl(DecodeAll(s).value)) then DecodeAll(s) else None
  {
    hide Body, Units, EscapeUnits, NoRaw;
    UnitsOk(s);
    UnitsValid(s);
    var body := EscapeUnits(Units(s), natural) + [QUOTE];
    assert Text(s, natural)[1..] == body;
    if DecodeAll(s).Some? {
      BodyDecodes(DecodeAll(s).value, natural);
    } else {
      RawBreaks(Units(s), natural);
    }
  }

  /** Natural UTF-8 with the control character U+0001 is not a JSON string. */
  lemma RawControlIsNotJson()
    ensures DecodeAll([1]) == Some([1]) && JsonDecode(Text([1], true)) == None
  {
    hide Body, Units, EscapeUnits, RawControl;
    var one: seq<nat> := [1];
    assert one[1..] == [] && EncodeAll(one[1..]) == [];
    PlainAscii(1);
    assert EncodeAll(one) == [1] + [];
    StreamRoundTrip(one);
    OneIsRaw();
    assert RawControl(one[0]);
    EscapeFaithful([1], true);
  }

  lemma OneIsRaw()
    ensures RawControl(1)
  {
  }

  /** Nor is the escape of a byte that is not UTF-8. */
  lemma RawByteIsNotJson()
    ensures DecodeAll([0xFF]) == None && JsonDecode(Text([0xFF], false)) == None
  {
    hide Body, Units, EscapeUnits;
    assert [0xFF][0] == 0xFF && Decode([0xFF]) == None;
    EscapeFaithful([0xFF], false);
  }

  // ---------------------------------------------------------------------
  // Nothing is lost, for any bytes

  function FromHex2(s: seq<Byte>): Option<Byte>
    requires |s| == 2
  {
    var a :- HexValue(s[0]);
    var b :- HexValue(s[1]);
    if a < 16 && b < 16 then Some(a * 16 + b) else None
  }

  function Join(x: seq<Byte>, rest: Option<seq<Byte>>): Option<seq<Byte>> {
    match rest
    case None => None
    case Some(s) => Some(x + s)
  }

  /** The bytes behind a text after its opening quote, with the escape of two
      digits for a single byte. */
  function Unescape(t: seq<Byte>): Option<seq<Byte>>
    decreases |t|
  {
    if t == [] then None
    else if t[0] == QUOTE then (if |t| == 1 then Some([]) else None)
    else if t[0] != BACKSLASH then Join([t[0]], Unescape(t[1..]))
    else if |t| < 2 then None
    else if t[1] == 120 then
      if |t| < 4 then None else
      var b :- FromHex2(t[2..4]);
      Join([b], Unescape(t[4..]))
    else if t[1] != LOWER_U then
      var c :- Short(t[1]);
      Join([c], Unescape(t[2..]))
    else
      var u :- Escaped(t);
      if Low(u) then None
      else if !High(u) then (if Scalar(u) then Join(Encode(u), Unescape(t[6..])) else None)
      else
        var l :- Escaped(t[6..]);
        if !Low(l) then None else
        var c := 0x10000 + (u - 0xD800) * 0x400 + (l - 0xDC00);
        if Scalar(c) then Join(Encode(c), Unescape(t[12..])) else None
  }

  lemma JoinJoin(x: seq<Byte>, y: seq<Byte>, rest: Option<seq<Byte>>)
    ensures Join(x, Join(y, rest)) == Join(x + y, rest)
  {
    if rest.Some? { assert x + (y + rest.value) == x + y + rest.value; }
  }

  lemma {:induction false} UnescapePlain(x: seq<Byte>, t: seq<Byte>)
    requires forall k :: 0 <= k < |x| ==> x[k] != QUOTE && x[k] != BACKSLASH
    ensures Unescape(x + t) == Join(x, Unescape(t))
    decreases |x|
  {
    if x == [] {
      assert x + t == t;
      if Unescape(t).Some? { assert x + Unescape(t).value == Unescape(t).value; }
    } else {
      assert (x + t)[1..] == x[1..] + t && (x + t)[0] == x[0];
      UnescapePlain(x[1..], t);
      JoinJoin([x[0]], x[1..], Unescape(t));
      assert [x[0]] + x[1..] == x;
    }
  }

  lemma UnescapeU(c: nat, t: seq<Byte>)
    requires Scalar(c) && c <= 0xFFFF
    ensures Unescape(U(c) + t) == Join(Encode(c), Unescape(t))
  {
    hide Hex4, FromHex4, Escaped, Encode;
    EscapedU(c, t);
  }

  lemma UnescapePair(c: nat, t: seq<Byte>)
    requires 0x10000 <= c < 0x110000
    ensures var b := c - 0x10000;
      Unescape(U(0xD800 + b / 0x400) + U(0xDC00 + b % 0x400) + t) == Join(Encode(c), Unescape(t))
  {
    hide Hex4, FromHex4, Escaped, Encode;
    var h, l := 0xD800 + (c - 0x10000) / 0x400, 0xDC00 + (c - 0x10000) % 0x400;
    EscapedU(h, U(l) + t);
    EscapedU(l, t);
    var s := U(h) + U(l) + t;
    assert s == U(h) + (U(l) + t);
    assert s[12..] == s[6..][6..] == t;
  }

  lemma UnescapeShort(c: nat, t: seq<Byte>)
    requires ShortEscape(c).Some?
    ensures Unescape([BACKSLASH, ShortEscape(c).value] + t) == Join(Encode(c), Unescape(t))
  {
    var s := [BACKSLASH, ShortEscape(c).value] + t;
    assert s[2..] == t;
    PlainAscii(c);
  }

  lemma UnescapeRaw(b: Byte, t: seq<Byte>)
    ensures Unescape([BACKSLASH, 120] + Hex2(b) + t) == Join([b], Unescape(t))
  {
    var s := [BACKSLASH, 120] + Hex2(b) + t;
    assert s[4..] == t && s[2..4] == Hex2(b);
    hide HexDigit, HexValue;
    DigitBack(b / 16);
    DigitBack(b % 16);
  }

  /** The bytes of an input unit. */
  function UnitBytes(u: Unit): seq<Byte>
    requires UnitOk(u)
  {
    match u case Code(c) => Encode(c) case Raw(b) => [b]
  }

  lemma CodeUnescapes(c: nat, natural: bool, t: seq<Byte>)
    requires Scalar(c)
    ensures Unescape(EscapeCode(c, natural) + t) == Join(Encode(c), Unescape(t))
  {
    hide Unescape, U, Join;
    if ShortEscape(c).Some? {
      UnescapeShort(c, t);
    } else if Printable(c) || natural {
      PlainBytes(c);
      UnescapePlain(Encode(c), t);
    } else if c <= 0xFFFF {
      UnescapeU(c, t);
    } else {
      UnescapePair(c, t);
    }
  }

  /** No byte of another code point is a quote or a backslash. */
  lemma PlainBytes(c: nat)
    requires Scalar(c) && ShortEscape(c).None?
    ensures forall k :: 0 <= k < |Encode(c)| ==> Encode(c)[k] != QUOTE && Encode(c)[k] != BACKSLASH
    ensures Printable(c) ==> Encode(c) == [c]
  {
    if c < 0x80 {
      PlainAscii(c);
    } else {
      TailHigh(c, Extra(c));
    }
  }

  lemma {:induction false} TailHigh(c: nat, k: nat)
    ensures forall j :: 0 <= j < |Tail(c, k)| ==> Tail(c, k)[j] >= 0x80
    decreases k
  {
    if k > 0 { TailHigh(c / 64, k - 1); }
  }

  function UnitsBytes(us: seq<Unit>): seq<Byte>
    requires AllOk(us)
  {
    if us == [] then [] else UnitBytes(us[0]) + UnitsBytes(us[1..])
  }

  lemma {:induction false} UnitsAreInput(s: seq<Byte>)
    ensures AllOk(Units(s)) && UnitsBytes(Units(s)) == s
    decreases |s|
  {
    hide Units, Decode, Encode, UnitsBytes;
    if s == [] {
      NoBytes();
    } else {
      UnitsOk(s);
      assert s[0..] == s;
      UnitsNext(s, 0);
      if Decode(s).Some? {
        var n := Decode(s).value.len;
        UnitsAreInput(s[n..]);
        FirstBytes(Code(Decode(s).value.code), Units(s[n..]));
        assert s[..n] + s[n..] == s;
      } else {
        UnitsAreInput(s[1..]);
        FirstBytes(Raw(s[0]), Units(s[1..]));
        assert [s[0]] + s[1..] == s;
      }
    }
  }

  lemma NoBytes()
    ensures Units([]) == [] && UnitsBytes([]) == []
  {
  }

  lemma FirstBytes(u: Unit, us: seq<Unit>)
    requires UnitOk(u) && AllOk(us)
    ensures AllOk([u] + us) && UnitsBytes([u] + us) == UnitBytes(u) + UnitsBytes(us)
  {
    hide Encode;
    assert ([u] + us)[1..] == us;
  }

  lemma {:induction false} UnitsUnescape(us: seq<Unit>, natural: bool)
    requires AllOk(us)
    ensures Unescape(EscapeUnits(us, natural) + [QUOTE]) == Some(UnitsBytes(us))
  {
    hide Unescape, EscapeCode, Encode;
    if us == [] {
      assert EscapeUnits(us, natural) + [QUOTE] == [QUOTE];
      UnescapeEnd();
    } else {
      var rest := EscapeUnits(us[1..], natural) + [QUOTE];
      assert EscapeUnits(us, natural) + [QUOTE] == EscapeUnit(us[0], natural) + rest;
      UnitsUnescape(us[1..], natural);
      match us[0]
      case Code(c) => CodeUnescapes(c, natural, rest);
      case Raw(b) => UnescapeRaw(b, rest);
    }
  }

  lemma UnescapeEnd()
    ensures Unescape([QUOTE]) == Some([])
  {
  }

  /** For every input, UTF-8 or not, and both settings: the text gives the input's
      bytes back. */
  lemma EscapeLossless(s: seq<Byte>, natural: bool)
    ensures Text(s, natural)[0] == QUOTE && Unescape(Text(s, natural)[1..]) == Some(s)
  {
    hide Unescape, Units, EscapeUnits;
    UnitsAreInput(s);
    UnitsUnescape(Units(s), natural);
    assert Text(s, natural)[1..] == EscapeUnits(Units(s), natural) + [QUOTE];
  }

  /** The short escapes are exactly those of JSON, but for the slash. */
  lemma ShortExact(c: nat, b: Byte)
    ensures ShortEscape(c) == Some(b) <==> b != 47 && Short(b) == Some(c)
  {
  }

  /** Printable ASCII without quotes and backslashes goes out as it is. */
  lemma {:induction false} PlainStaysPlain(s: seq<Byte>, natural: bool)
    requires forall k :: 0 <= k < |s| ==> 0x20 <= s[k] <= 0x7E && s[k] != QUOTE && s[k] != BACKSLASH
    ensures Text(s, natural) == [QUOTE] + s + [QUOTE]
  {
    PlainUnits(s, natural);
  }

  lemma {:induction false} PlainUnits(s: seq<Byte>, natural: bool)
    requires forall k :: 0 <= k < |s| ==> 0x20 <= s[k] <= 0x7E && s[k] != QUOTE && s[k] != BACKSLASH
    ensures AllOk(Units(s)) && EscapeUnits(Units(s), natural) == s
    decreases |s|
  {
    hide Units, EscapeUnits, EscapeUnit;
    if s == [] {
      NoUnits(natural);
    } else {
      PlainUnits(s[1..], natural);
      PlainFirst(s, natural);
      EscapeUnitsConcat([Code(s[0])], Units(s[1..]), natural);
      assert [s[0]] + s[1..] == s;
    }
  }

  lemma PlainFirst(s: seq<Byte>, natural: bool)
    requires s != [] && 0x20 <= s[0] <= 0x7E && s[0] != QUOTE && s[0] != BACKSLASH
    ensures Units(s) == [Code(s[0])] + Units(s[1..])
    ensures AllOk([Code(s[0])]) && EscapeUnits([Code(s[0])], natural) == [s[0]]
  {
    hide Units, Decode, Encode;
    assert s[0..] == s;
    AsciiNext(s, 0);
    var us := [Code(s[0])];
    assert us[1..] == [] && EscapeUnits(us[1..], natural) == [];
    assert EscapeUnit(us[0], natural) == [s[0]];
  }

  // ---------------------------------------------------------------------
  // The loop

  /** The branch for what is not printable ASCII. */
  method EscapeOther(ucc: nat, natural: bool, s: seq<Byte>, at: nat, end: nat) returns (out: seq<Byte>)
    requires Scalar(ucc) && ShortEscape(ucc).None? && !Printable(ucc)
    requires at <= end <= |s| && s[at..end] == Encode(ucc)
    ensures out == EscapeCode(ucc, natural)
  {
    hide And, Encode;
    if natural {
      out := s[at..end];
    } else if ucc <= 0xFFFF {
      out := [BACKSLASH, LOWER_U] + Hex4(ucc);
    } else {
      var base := ucc - 0x10000;
      assert Pow2(10) == 0x400;
      AndLowMask(base, 10);
      var high := base / 0x400 + 0xD800;
      var low := And(base, 0x3FF) + 0xDC00;
      out := [BACKSLASH, LOWER_U] + Hex4(high) + ([BACKSLASH, LOWER_U] + Hex4(low));
    }
  }

  lemma {:induction false} EscapeUnitsConcat(a: seq<Unit>, b: seq<Unit>, natural: bool)
    requires AllOk(a) && AllOk(b)
    ensures AllOk(a + b) && EscapeUnits(a + b, natural) == EscapeUnits(a, natural) + EscapeUnits(b, natural)
  {
    hide EscapeUnit;
    if a == [] {
      assert a + b == b;
    } else {
      assert (a + b)[1..] == a[1..] + b;
      EscapeUnitsConcat(a[1..], b, natural);
    }
  }

  lemma UnitsNext(s: seq<Byte>, i: nat)
    requires i < |s|
    ensures match Decode(s[i..])
      case Some(d) => 0 < d.len <= |s| - i && Scalar(d.code) && s[i..i + d.len] == Encode(d.code)
        && Units(s[i..]) == [Code(d.code)] + Units(s[i + d.len..])
      case None => Units(s[i..]) == [Raw(s[i])] + Units(s[i + 1..])
  {
    var t := s[i..];
    if Decode(t).Some? {
      EncodeDecode(t);
      var d := Decode(t).value;
      assert t[..d.len] == s[i..i + d.len] && t[d.len..] == s[i + d.len..];
    } else {
      assert t[1..] == s[i + 1..];
    }
  }

  lemma AsciiNext(s: seq<Byte>, i: nat)
    requires i < |s| && s[i] < 0x80
    ensures Units(s[i..]) == [Code(s[i])] + Units(s[i + 1..])
  {
    UnitsNext(s, i);
  }

  /** One more unit done. */
  lemma UnitDone(s: seq<Byte>, i: nat, done: seq<Unit>, u: Unit, j: nat, natural: bool)
    requires i < j <= |s| && AllOk(done) && UnitOk(u)
    requires Units(s) == done + Units(s[i..]) && Units(s[i..]) == [u] + Units(s[j..])
    ensures AllOk(done + [u]) && Units(s) == (done + [u]) + Units(s[j..])
    ensures EscapeUnits(done + [u], natural) == EscapeUnits(done, natural) + EscapeUnit(u, natural)
  {
    hide Units, EscapeUnit;
    EscapeUnitsConcat(done, [u], natural);
    assert EscapeUnits([u], natural) == EscapeUnit(u, natural) + [];
  }

  /** EscapeString on NUL-terminated input. It fails exactly when some byte is
      not UTF-8 and that is not allowed. */
  method EscapeString(s: seq<Byte>, text: seq<Byte>, allowNonUtf8: bool, natural: bool) returns (ok: bool, out: seq<Byte>)
    ensures ok <==> allowNonUtf8 || DecodeAll(s).Some?
    ensures ok ==> out == text + Text(s, natural)
  {
    hide Units, EscapeUnits, EscapeUnit, Decode, Encode, EscapeCode, NoRaw;
    UnitsOk(s);
    UnitsValid(s);
    NoUnits(natural);
    out := text + [QUOTE];
    ghost var done: seq<Unit> := [];
    var i := 0;
    assert s[0..] == s;
    while i < |s|
      invariant i <= |s| && AllOk(done) && Units(s) == done + Units(s[i..])
      invariant out == text + [QUOTE] + EscapeUnits(done, natural)
      invariant allowNonUtf8 || NoRaw(done)
      decreases |s| - i
    {
      var more, next, u := EscapeNext(s, i, allowNonUtf8, natural);
      if !allowNonUtf8 && u.Raw? {
        RawFails(s, done, i, u);
        return false, out;
      }
      UnitDone(s, i, done, u, next, natural);
      NoRawNext(done, u);
      out := out + more;
      done := done + [u];
      i := next;
    }
    assert s[i..] == [];
    NoUnits(natural);
    assert Units(s) == done;
    out := out + [QUOTE];
    ok := true;
  }

  lemma NoUnits(natural: bool)
    ensures Units([]) == [] && EscapeUnits([], natural) == [] && NoRaw([])
  {
  }

  lemma NoRawNext(done: seq<Unit>, u: Unit)
    ensures NoRaw(done + [u]) <==> NoRaw(done) && u.Code?
  {
    var all := done + [u];
    assert all[|done|] == u && forall k :: 0 <= k < |done| ==> all[k] == done[k];
  }

  lemma RawFails(s: seq<Byte>, done: seq<Unit>, i: nat, u: Unit)
    requires i < |s| && u.Raw? && Units(s) == done + Units(s[i..]) && |Units(s[i..])| > 0 && Units(s[i..])[0] == u
    ensures !NoRaw(Units(s))
  {
    hide Units;
    assert Units(s)[|done|] == u;
  }

  /** One turn of the loop: the unit at i, its text and where the next starts. */
  method EscapeNext(s: seq<Byte>, i: nat, allowNonUtf8: bool, natural: bool) returns (more: seq<Byte>, next: nat, u: Unit)
    requires i < |s|
    ensures UnitOk(u) && i < next <= |s| && Units(s[i..]) == [u] + Units(s[next..])
    ensures u.Code? || allowNonUtf8 ==> more == EscapeUnit(u, natural)
  {
    hide Units, Decode, Encode;
    var c := s[i];
    UnitsNext(s, i);
    if ShortEscape(c).Some? {
      AsciiNext(s, i);
      more, next, u := [BACKSLASH, ShortEscape(c).value], i + 1, Code(c);
    } else if Printable(c) {
      AsciiNext(s, i);
      more, next, u := [c], i + 1, Code(c);
    } else {
      var ucc, end := FromUTF8(s, i);
      if ucc < 0 {
        more, next, u := [BACKSLASH, 120] + Hex2(c), i + 1, Raw(c);
      } else {
        OtherCode(s, i);
        more := EscapeOther(ucc, natural, s, i, end);
        next, u := end, Code(ucc);
      }
    }
  }

  /** Only the byte itself decodes to a short escape or printable ASCII. */
  lemma OtherCode(s: seq<Byte>, i: nat)
    requires i < |s| && ShortEscape(s[i]).None? && !Printable(s[i]) && Decode(s[i..]).Some?
    ensures ShortEscape(Decode(s[i..]).value.code).None? && !Printable(Decode(s[i..]).value.code)
  {
    EncodeDecode(s[i..]);
    var c := Decode(s[i..]).value.code;
    if c < 0x80 {
      PlainAscii(c);
      assert s[i] == s[i..][0] == c;
    }
  }
}

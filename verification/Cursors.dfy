/** The opaque page cursor: a hex string over `timestamp TAB id`. */
module Cursors {
  import opened Common

  newtype Byte = n: int | 0 <= n < 256

  type Text = seq<Byte>

  const TAB: Byte := 9

  // ----- UTF-8 (RFC 3629, section 4) -----

  predicate Cont(b: Byte) { 0x80 <= b <= 0xBF }

  /** The length of the character that `s` starts with, or 0 when it starts with none. */
  function CharLength(s: Text): (n: nat)
    ensures n <= 4 && n <= |s|
  {
    if s == [] then 0
    else if s[0] < 0x80 then 1
    else if |s| >= 2 && 0xC2 <= s[0] <= 0xDF && Cont(s[1]) then 2
    else if |s| >= 3 && Cont(s[1]) && Cont(s[2])
            && ((s[0] == 0xE0 && s[1] >= 0xA0) || 0xE1 <= s[0] <= 0xEC || (s[0] == 0xED && s[1] <= 0x9F) || 0xEE <= s[0] <= 0xEF) then 3
    else if |s| >= 4 && Cont(s[1]) && Cont(s[2]) && Cont(s[3])
            && ((s[0] == 0xF0 && s[1] >= 0x90) || 0xF1 <= s[0] <= 0xF3 || (s[0] == 0xF4 && s[1] <= 0x8F)) then 4
    else 0
  }

  predicate IsUtf8(s: Text)
    decreases |s|
  {
    s == [] || (CharLength(s) > 0 && IsUtf8(s[CharLength(s)..]))
  }

  // The encoding itself, of one scalar value.

  predicate IsScalar(cp: int) { 0 <= cp < 0xD800 || 0xE000 <= cp <= 0x10FFFF }

  function Utf8(cp: int): (s: Text)
    requires IsScalar(cp)
    ensures 1 <= |s| <= 4
  {
    if cp < 0x80 then [cp as Byte]
    else if cp < 0x800 then [(0xC0 + cp / 64) as Byte, (0x80 + cp % 64) as Byte]
    else if cp < 0x10000 then [(0xE0 + cp / 4096) as Byte, (0x80 + cp / 64 % 64) as Byte, (0x80 + cp % 64) as Byte]
    else [(0xF0 + cp / 262144) as Byte, (0x80 + cp / 4096 % 64) as Byte, (0x80 + cp / 64 % 64) as Byte, (0x80 + cp % 64) as Byte]
  }

  lemma EncodedStarts(cp: int, rest: Text)
    requires IsScalar(cp)
    ensures CharLength(Utf8(cp) + rest) == |Utf8(cp)|
  {
    var s := Utf8(cp) + rest;
    assert forall i :: 0 <= i < |Utf8(cp)| ==> s[i] == Utf8(cp)[i];
  }

  /** Digits to base 64. */
  lemma Base64(a: int, b: int, c: int, d: int)
    requires 0 <= a && 0 <= b < 64 && 0 <= c < 64 && 0 <= d < 64
    ensures var n := a * 262144 + b * 4096 + c * 64 + d;
            n / 262144 == a && n / 4096 == a * 64 + b && n / 4096 % 64 == b && n / 64 % 64 == c && n % 64 == d
  {
  }

  lemma TwoBytes(s: Text) returns (cp: int)
    requires CharLength(s) == 2
    ensures IsScalar(cp) && Utf8(cp) == s[..2]
  {
    var a, b := s[0] as int - 0xC0, s[1] as int - 0x80;
    Base64(0, 0, a, b);
    cp := a * 64 + b;
  }

  lemma ThreeBytes(s: Text) returns (cp: int)
    requires CharLength(s) == 3
    ensures IsScalar(cp) && Utf8(cp) == s[..3]
  {
    var a, b, c := s[0] as int - 0xE0, s[1] as int - 0x80, s[2] as int - 0x80;
    Base64(0, a, b, c);
    cp := a * 4096 + b * 64 + c;
  }

  lemma FourBytes(s: Text) returns (cp: int)
    requires CharLength(s) == 4
    ensures IsScalar(cp) && Utf8(cp) == s[..4]
  {
    var a, b, c, d := s[0] as int - 0xF0, s[1] as int - 0x80, s[2] as int - 0x80, s[3] as int - 0x80;
    Base64(a, b, c, d);
    cp := a * 262144 + b * 4096 + c * 64 + d;
  }

  /** A text that starts with a character starts with the encoding of a scalar value. */
  lemma CharIsEncoded(s: Text) returns (cp: int)
    requires CharLength(s) > 0
    ensures IsScalar(cp) && Utf8(cp) == s[..CharLength(s)]
  {
    if CharLength(s) == 1 {
      cp := s[0] as int;
    } else if CharLength(s) == 2 {
      cp := TwoBytes(s);
    } else if CharLength(s) == 3 {
      cp := ThreeBytes(s);
    } else {
      cp := FourBytes(s);
    }
  }

  ghost function Encoded(cps: seq<int>): Text
    requires forall cp :: cp in cps ==> IsScalar(cp)
  {
    if cps == [] then [] else Utf8(cps[0]) + Encoded(cps[1..])
  }

  /** Valid text is the encoding of some scalar values. */
  lemma {:induction false} Utf8Iff(s: Text)
    ensures IsUtf8(s) <==> exists cps :: (forall cp :: cp in cps ==> IsScalar(cp)) && Encoded(cps) == s
    decreases |s|
  {
    hide CharLength, Utf8;
    if IsUtf8(s) {
      var cps := Decoded(s);
    }
    forall cps | (forall cp :: cp in cps ==> IsScalar(cp)) && Encoded(cps) == s ensures IsUtf8(s) {
      EncodedIsUtf8(cps);
    }
  }

  lemma {:induction false} Decoded(s: Text) returns (cps: seq<int>)
    requires IsUtf8(s)
    ensures (forall cp :: cp in cps ==> IsScalar(cp)) && Encoded(cps) == s
    decreases |s|
  {
    hide CharLength, Utf8;
    if s == [] {
      cps := [];
    } else {
      var k := CharLength(s);
      var cp := CharIsEncoded(s);
      var rest := Decoded(s[k..]);
      cps := [cp] + rest;
      assert cps[1..] == rest && s == s[..k] + s[k..];
    }
  }

  lemma {:induction false} EncodedIsUtf8(cps: seq<int>)
    requires forall cp :: cp in cps ==> IsScalar(cp)
    ensures IsUtf8(Encoded(cps))
  {
    hide CharLength, Utf8;
    if cps != [] {
      EncodedIsUtf8(cps[1..]);
      EncodedStarts(cps[0], Encoded(cps[1..]));
      var s := Utf8(cps[0]) + Encoded(cps[1..]);
      assert s[|Utf8(cps[0])|..] == Encoded(cps[1..]);
    }
  }

  lemma CharLengthOfConcat(a: Text, b: Text)
    requires CharLength(a) > 0
    ensures CharLength(a + b) == CharLength(a)
  {
  }

  lemma {:induction false} Utf8Concat(a: Text, b: Text)
    requires IsUtf8(a) && IsUtf8(b)
    ensures IsUtf8(a + b)
    decreases |a|
  {
    hide CharLength;
    if a == [] {
      assert a + b == b;
    } else {
      var k := CharLength(a);
      CharLengthOfConcat(a, b);
      Utf8Concat(a[k..], b);
      assert (a + b)[k..] == a[k..] + b;
    }
  }

  // ----- hex -----

  function HexChar(d: nat): (c: char)
    requires d < 16
  {
    if d < 10 then '0' + d as char else 'a' + (d - 10) as char
  }

  function HexDigit(c: char): (d: Option<nat>)
    ensures d.Some? ==> d.value < 16
  {
    if '0' <= c <= '9' then Some(c as nat - '0' as nat)
    else if 'a' <= c <= 'f' then Some(c as nat - 'a' as nat + 10)
    else if 'A' <= c <= 'F' then Some(c as nat - 'A' as nat + 10)
    else None
  }

  function HexEncode(s: Text): string {
    if s == [] then "" else [HexChar(s[0] as nat / 16), HexChar(s[0] as nat % 16)] + HexEncode(s[1..])
  }

  function HexDecode(s: string): Option<Text>
    decreases |s|
  {
    if s == "" then Some([])
    else if |s| == 1 || HexDigit(s[0]).None? || HexDigit(s[1]).None? then None
    else
      match HexDecode(s[2..])
      case None => None
      case Some(rest) => Some([(HexDigit(s[0]).value * 16 + HexDigit(s[1]).value) as Byte] + rest)
  }

  /** `hex` reads both cases and writes lower case. */
  function Lower(c: char): char { if 'A' <= c <= 'F' then 'a' + (c - 'A') else c }

  function LowerAll(s: string): string { seq(|s|, i requires 0 <= i < |s| => Lower(s[i])) }

  lemma HexCharDigit(d: nat)
    requires d < 16
    ensures HexDigit(HexChar(d)) == Some(d)
  {
  }

  lemma HexDigitChar(c: char)
    requires HexDigit(c).Some?
    ensures HexChar(HexDigit(c).value) == Lower(c)
  {
  }

  lemma LowerKeepsDigit(c: char)
    ensures HexDigit(Lower(c)) == HexDigit(c)
  {
  }

  lemma BytePair(h: nat, l: nat)
    requires h < 16 && l < 16
    ensures (h * 16 + l) / 16 == h && (h * 16 + l) % 16 == l
  {
    DivModUnique(h, l, 16);
  }

  lemma {:induction false} HexRoundTrip(s: Text)
    ensures HexDecode(HexEncode(s)) == Some(s)
  {
    hide HexChar, HexDigit;
    if s != [] {
      HexCharDigit(s[0] as nat / 16);
      HexCharDigit(s[0] as nat % 16);
      HexRoundTrip(s[1..]);
      assert HexEncode(s)[2..] == HexEncode(s[1..]);
      assert s[0] as nat == s[0] as nat / 16 * 16 + s[0] as nat % 16;
      assert [s[0]] + s[1..] == s;
    }
  }

  /** Decoding accepts exactly the encodings, in either letter case. */
  lemma {:induction false} HexDecodeIff(s: string, t: Text)
    ensures HexDecode(s) == Some(t) <==> LowerAll(s) == HexEncode(t)
    decreases |s|
  {
    hide HexChar, HexDigit, Lower;
    if HexDecode(s).Some? {
      HexDecodeLower(s);
    }
    if LowerAll(s) == HexEncode(t) {
      HexRoundTrip(t);
      DecodeIgnoresCase(s);
    }
  }

  lemma {:induction false} HexDecodeLower(s: string)
    requires HexDecode(s).Some?
    ensures HexEncode(HexDecode(s).value) == LowerAll(s)
    decreases |s|
  {
    hide HexChar, HexDigit, Lower;
    if s != "" {
      HexDecodeLower(s[2..]);
      HexDigitChar(s[0]);
      HexDigitChar(s[1]);
      BytePair(HexDigit(s[0]).value, HexDigit(s[1]).value);
      assert HexDecode(s).value[1..] == HexDecode(s[2..]).value;
      assert LowerAll(s) == [Lower(s[0]), Lower(s[1])] + LowerAll(s[2..]);
    }
  }

  lemma {:induction false} DecodeIgnoresCase(s: string)
    ensures HexDecode(LowerAll(s)) == HexDecode(s)
    decreases |s|
  {
    hide HexDigit, Lower;
    if |s| >= 2 {
      DecodeIgnoresCase(s[2..]);
      LowerKeepsDigit(s[0]);
      LowerKeepsDigit(s[1]);
      assert LowerAll(s)[2..] == LowerAll(s[2..]);
    }
  }

  // ----- cursors -----

  function EncodeCursor(ts: Text, id: Text): string { HexEncode(ts + [TAB] + id) }

  function DecodeCursor(raw: string): Option<(Text, Text)> {
    match HexDecode(raw)
    case None => None
    case Some(bytes) => if IsUtf8(bytes) then SplitOnce(bytes, TAB) else None
  }

  lemma JoinedIsUtf8(ts: Text, id: Text)
    requires IsUtf8(ts) && IsUtf8(id)
    ensures IsUtf8(ts + [TAB] + id)
  {
    assert IsUtf8([TAB]) by { assert [TAB][1..] == []; }
    Utf8Concat(ts, [TAB]);
    Utf8Concat(ts + [TAB], id);
  }

  /** A cursor reads back as the key it was made from, if and only if the timestamp holds no tab. */
  lemma CursorRoundTrip(ts: Text, id: Text)
    requires IsUtf8(ts) && IsUtf8(id)
    ensures DecodeCursor(EncodeCursor(ts, id)) == Some((ts, id)) <==> 9 as Byte !in ts
  {
    hide HexEncode, HexDecode, IsUtf8, SplitOnce;
    JoinedIsUtf8(ts, id);
    HexRoundTrip(ts + [TAB] + id);
    if TAB !in ts { SplitOnceOfConcat(ts, TAB, id); }
  }

  /** What an accepted cursor denotes: it is the encoding of its key, in either letter case. */
  lemma AcceptedCursorIs(raw: string, ts: Text, id: Text)
    ensures DecodeCursor(raw) == Some((ts, id)) <==> LowerAll(raw) == EncodeCursor(ts, id) && TAB !in ts && IsUtf8(ts + [TAB] + id)
  {
    hide HexEncode, HexDecode, IsUtf8, SplitOnce, LowerAll;
    HexDecodeIff(raw, ts + [TAB] + id);
    if TAB !in ts { SplitOnceOfConcat(ts, TAB, id); }
  }
}

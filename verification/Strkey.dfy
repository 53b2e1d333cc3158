/** Strkey account addresses: base32, CRC16-XModem, and what the checksum is worth. */
module Strkey {
  import opened Common
  import opened FeedbackRegister

  const ED25519_PUBLIC_KEY_VERSION: bv8 := 6 << 3
  const ACCOUNT_STRKEY_LEN := 56
  const ACCOUNT_DECODED_LEN := 35
  const ALPHABET: string := "ABCDEFGHIJKLMNOPQRSTUVWXYZ234567"

  datatype StrkeyError = Length | Alphabet | Version | Checksum

  // ----- bit streams: what the words of the implementation mean -----

  /** The five-bit digit that `c` stands for: its position in the alphabet. */
  function Digit(c: char): (r: Option<nat>)
    ensures r.Some? ==> r.value < 32 && c as int < 128
  {
    if 'A' <= c <= 'Z' then Some(c as int - 'A' as int)
    else if '2' <= c <= '7' then Some(c as int - '2' as int + 26)
    else None
  }

  lemma DigitIsPosition(i: nat, c: char)
    requires i < 32
    ensures |ALPHABET| == 32
    ensures Digit(c) == Some(i) <==> c == ALPHABET[i]
  {
  }

  predicate InAlphabet(s: string) {
    forall i :: 0 <= i < |s| ==> Digit(s[i]).Some?
  }

  function Flag(b: bool): nat { if b then 1 else 0 }

  /** The number that `bits` spells, most significant bit first. */
  function Word(bits: seq<bool>): nat
  {
    if bits == [] then 0 else Word(bits[..|bits| - 1]) * 2 + Flag(bits[|bits| - 1])
  }

  function Bits8(b: bv8): (r: seq<bool>)
    ensures |r| == 8
  {
    [b & 0x80 != 0, b & 0x40 != 0, b & 0x20 != 0, b & 0x10 != 0, b & 0x8 != 0, b & 0x4 != 0, b & 0x2 != 0, b & 0x1 != 0]
  }

  function Bits5(v: nat): (r: seq<bool>)
    ensures |r| == 5
  {
    [v / 16 % 2 == 1, v / 8 % 2 == 1, v / 4 % 2 == 1, v / 2 % 2 == 1, v % 2 == 1]
  }

  /** Bytes, each most significant bit first. */
  function ByteBits(bytes: seq<bv8>): (r: seq<bool>)
    ensures |r| == 8 * |bytes|
  {
    if bytes == [] then [] else ByteBits(bytes[..|bytes| - 1]) + Bits8(bytes[|bytes| - 1])
  }

  /** The five-bit groups that the characters of `s` stand for, in order. */
  function DigitBits(s: string): (r: seq<bool>)
    requires InAlphabet(s)
    ensures |r| == 5 * |s|
  {
    if s == [] then [] else DigitBits(s[..|s| - 1]) + Bits5(Digit(s[|s| - 1]).value)
  }

  lemma WordUnfold(x: seq<bool>)
    requires x != []
    ensures Word(x) == Word(x[..|x| - 1]) * 2 + Flag(x[|x| - 1])
  {
  }

  lemma WordOfNothing()
    ensures Word([]) == 0 && Pow2(0) == 1
  {
  }

  lemma Pow2Unfold(n: nat)
    requires n > 0
    ensures Pow2(n) == 2 * Pow2(n - 1)
  {
  }

  lemma TimesTwo(a: int, b: int)
    ensures a * (2 * b) == 2 * (a * b)
  {
  }

  lemma {:induction false} WordConcat(x: seq<bool>, y: seq<bool>)
    ensures Word(x + y) == Word(x) * Pow2(|y|) + Word(y)
    ensures Word(y) < Pow2(|y|)
  {
    hide Word, Pow2;
    if y == [] {
      assert x + y == x;
      WordOfNothing();
    } else {
      var y' := y[..|y| - 1];
      WordConcat(x, y');
      WordUnfold(y);
      WordUnfold(x + y);
      assert (x + y)[..|x + y| - 1] == x + y';
      Pow2Unfold(|y|);
      TimesTwo(Word(x), Pow2(|y'|));
    }
  }

  lemma {:induction false} WordInjective(x: seq<bool>, y: seq<bool>)
    requires |x| == |y| && Word(x) == Word(y)
    ensures x == y
  {
    if x != [] {
      var n := |x| - 1;
      WordInjective(x[..n], y[..n]);
      assert x == x[..n] + [x[n]] && y == y[..n] + [y[n]];
    }
  }

  lemma Word3(a: bool, b: bool, c: bool)
    ensures Word([a, b, c]) == 4 * Flag(a) + 2 * Flag(b) + Flag(c)
  {
    assert [a, b, c][..2] == [a, b] && [a, b][..1] == [a];
    assert Word([a]) == Flag(a);
  }

  lemma Word5(a: bool, b: bool, c: bool, d: bool, e: bool)
    ensures Word([a, b, c, d, e]) == 16 * Flag(a) + 8 * Flag(b) + 4 * Flag(c) + 2 * Flag(d) + Flag(e)
  {
    Word3(a, b, c);
    assert [a, b, c, d, e][..4] == [a, b, c, d] && [a, b, c, d][..3] == [a, b, c];
  }

  lemma Word8(a: bool, b: bool, c: bool, d: bool, e: bool, f: bool, g: bool, h: bool)
    ensures Word([a, b, c, d, e, f, g, h])
         == 128 * Flag(a) + 64 * Flag(b) + 32 * Flag(c) + 16 * Flag(d) + 8 * Flag(e) + 4 * Flag(f) + 2 * Flag(g) + Flag(h)
  {
    Word5(a, b, c, d, e);
    Word3(f, g, h);
    WordConcat([a, b, c, d, e], [f, g, h]);
    assert [a, b, c, d, e] + [f, g, h] == [a, b, c, d, e, f, g, h] && Pow2(3) == 8;
  }

  lemma WordOfDigit(v: nat)
    requires v < 32
    ensures Word(Bits5(v)) == v
  {
    var b := Bits5(v);
    Word5(b[0], b[1], b[2], b[3], b[4]);
  }

  lemma ByteSum(b: bv8)
    ensures (b as nat) == 128 * Flag(b & 0x80 != 0) + 64 * Flag(b & 0x40 != 0) + 32 * Flag(b & 0x20 != 0)
      + 16 * Flag(b & 0x10 != 0) + 8 * Flag(b & 0x8 != 0) + 4 * Flag(b & 0x4 != 0) + 2 * Flag(b & 0x2 != 0) + Flag(b & 0x1 != 0)
  {
  }

  lemma WordOfByte(b: bv8)
    ensures Word(Bits8(b)) == b as nat
  {
    Word8(b & 0x80 != 0, b & 0x40 != 0, b & 0x20 != 0, b & 0x10 != 0, b & 0x8 != 0, b & 0x4 != 0, b & 0x2 != 0, b & 0x1 != 0);
    ByteSum(b);
  }

  // ----- base32 -----

  lemma SplitWord(pending: seq<bool>, k: nat)
    requires |pending| == k + 8
    ensures Word(pending) / Pow2(k) == Word(pending[..8]) < 256
    ensures Word(pending) % Pow2(k) == Word(pending[8..]) < Pow2(k)
  {
    assert pending == pending[..8] + pending[8..];
    WordConcat(pending[..8], pending[8..]);
    DivModUnique(Word(pending[..8]), Word(pending[8..]), Pow2(k));
    WordConcat([], pending[..8]);
    assert Pow2(8) == 256;
  }

  /** Shifting in a digit appends its five bits. */
  lemma PushDigit(pending: seq<bool>, v: nat)
    requires v < 32
    ensures Word(pending + Bits5(v)) == Word(pending) * 32 + v < Pow2(|pending| + 5)
  {
    WordConcat(pending, Bits5(v));
    WordOfDigit(v);
    assert Pow2(5) == 32;
    WordConcat([], pending + Bits5(v));
    assert [] + (pending + Bits5(v)) == pending + Bits5(v);
  }

  /** Taking the top byte out of the accumulator removes its first eight bits. */
  lemma PopByte(pending: seq<bool>, b: bv8)
    requires |pending| >= 8 && b as nat == Word(pending[..8])
    ensures Bits8(b) + pending[8..] == pending
  {
    WordOfByte(b);
    WordInjective(Bits8(b), pending[..8]);
  }

  lemma ByteBitsSnoc(bytes: seq<bv8>, b: bv8)
    ensures ByteBits(bytes + [b]) == ByteBits(bytes) + Bits8(b)
  {
    assert (bytes + [b])[..|bytes|] == bytes;
  }

  lemma DigitBitsPrefix(s: string, n: nat)
    requires n < |s| && InAlphabet(s[..n]) && Digit(s[n]).Some?
    ensures InAlphabet(s[..n + 1])
    ensures DigitBits(s[..n + 1]) == DigitBits(s[..n]) + Bits5(Digit(s[n]).value)
  {
    assert s[..n + 1][..n] == s[..n];
  }

  /** The accumulator holds the digit bits that no output byte holds yet. */
  ghost predicate Decoding(s: string, n: nat, out: seq<bv8>, pending: seq<bool>)
    requires n <= |s|
  {
    InAlphabet(s[..n]) && DigitBits(s[..n]) == ByteBits(out) + pending
  }

  lemma DecodeStart(s: string)
    ensures Decoding(s, 0, [], []) && Word([]) == 0 && Pow2(0) == 1
  {
    assert s[..0] == [];
  }

  lemma OutsideAlphabet(s: string, n: nat)
    requires n < |s| && Digit(s[n]).None?
    ensures !InAlphabet(s)
  {
  }

  lemma DecodePush(s: string, n: nat, out: seq<bv8>, pending: seq<bool>)
    requires n < |s| && Digit(s[n]).Some? && Decoding(s, n, out, pending)
    ensures Decoding(s, n + 1, out, pending + Bits5(Digit(s[n]).value))
  {
    DigitBitsPrefix(s, n);
  }

  lemma DecodePop(s: string, n: nat, out: seq<bv8>, pending: seq<bool>, b: bv8)
    requires n <= |s| && Decoding(s, n, out, pending)
    requires |pending| >= 8 && b as nat == Word(pending[..8])
    ensures Decoding(s, n, out + [b], pending[8..])
  {
    PopByte(pending, b);
    ByteBitsSnoc(out, b);
  }

  lemma DecodeDone(s: string, out: seq<bv8>, pending: seq<bool>)
    requires Decoding(s, |s|, out, pending) && |pending| < 8
    ensures InAlphabet(s) && |out| == 5 * |s| / 8 && ByteBits(out) == DigitBits(s)[..8 * |out|]
  {
    assert s[..|s|] == s;
  }

  /** The decoder's output is the digit bits regrouped by eight; fewer than eight are left over.
      The accumulator is below 2^bits, so shifting left and or-ing is multiplying and adding. */
  method Base32Decode(s: string) returns (r: Option<seq<bv8>>)
    ensures r.Some? <==> InAlphabet(s)
    ensures r.Some? ==> |r.value| == 5 * |s| / 8 && ByteBits(r.value) == DigitBits(s)[..8 * |r.value|]
  {
    hide Decoding, Word, Pow2, Bits5, Bits8, ByteBits, DigitBits, Digit, ByteOf, InAlphabet;
    var out: seq<bv8> := [];
    var buffer: nat := 0;
    var bits: nat := 0;
    ghost var pending: seq<bool> := [];
    DecodeStart(s);
    for n := 0 to |s|
      invariant bits < 8 && |pending| == bits
      invariant buffer == Word(pending) < Pow2(bits)
      invariant Decoding(s, n, out, pending)
    {
      var value := Digit(s[n]);
      if value.None? {
        OutsideAlphabet(s, n);
        return None;
      }
      DecodePush(s, n, out, pending);
      PushDigit(pending, value.value);
      buffer := buffer * 32 + value.value;
      pending := pending + Bits5(value.value);
      bits := bits + 5;
      if bits >= 8 {
        bits := bits - 8;
        SplitWord(pending, bits);
        var byte := ByteOf(buffer / Pow2(bits));
        DecodePop(s, n + 1, out, pending, byte);
        out := out + [byte];
        buffer := buffer % Pow2(bits);
        pending := pending[8..];
      }
    }
    DecodeDone(s, out, pending);
    return Some(out);
  }

  // ----- CRC16-XModem -----

  function Xor(a: bv16, b: bv16): bv16 { a ^ b }

  predicate Top(a: bv16) { a & 0x8000 != 0 }

  function Double(a: bv16): bv16 { a << 1 }

  function Shift(crc: bv16): bv16 {
    if Top(crc) then Xor(Double(crc), 0x1021) else Double(crc)
  }

  /** One step of the bit-serial register: dividing by x^16 + x^12 + x^5 + 1. */
  function CrcBit(crc: bv16, b: bool): bv16 {
    if Top(crc) != b then Xor(Double(crc), 0x1021) else Double(crc)
  }

  /** The bit-serial checksum: the reference the byte-wise loop is proved against. */
  function CrcBits(bits: seq<bool>): bv16 { Fold(CrcBit, 0, bits) }

  lemma XorDouble(a: bv16, b: bv16)
    ensures Double(Xor(a, b)) == Xor(Double(a), Double(b))
  {
  }

  lemma XorTop(a: bv16, b: bv16)
    ensures Top(Xor(a, b)) == (Top(a) != Top(b))
  {
  }

  lemma XorRight(a: bv16, b: bv16, k: bv16)
    ensures Xor(a, Xor(b, k)) == Xor(Xor(a, b), k)
  {
  }

  lemma XorLeft(a: bv16, b: bv16, k: bv16)
    ensures Xor(Xor(a, k), b) == Xor(Xor(a, b), k)
  {
  }

  lemma XorBoth(a: bv16, b: bv16, k: bv16)
    ensures Xor(Xor(a, k), Xor(b, k)) == Xor(a, b)
  {
  }

  lemma XorZero(a: bv16)
    ensures Xor(a, 0) == a
  {
  }

  /** Shifting with input still pending in the register is feeding the pending top bit. */
  lemma ShiftPending(a: bv16, pending: bv16)
    ensures Shift(Xor(a, pending)) == Xor(CrcBit(a, Top(pending)), Double(pending))
  {
    hide Xor, Top, Double;
    XorDouble(a, pending);
    XorTop(a, pending);
    XorLeft(Double(a), Double(pending), 0x1021);
  }

  lemma CrcBitLinear(a: bv16, b: bv16, x: bool, y: bool)
    ensures CrcBit(Xor(a, b), x != y) == Xor(CrcBit(a, x), CrcBit(b, y))
  {
    hide Xor, Top, Double;
    XorDouble(a, b);
    XorTop(a, b);
    XorLeft(Double(a), Double(b), 0x1021);
    XorRight(Double(a), Double(b), 0x1021);
    XorBoth(Double(a), Double(b), 0x1021);
  }

  /** What is left of a byte in the top of the register after 0, 1, ..., 8 shifts. */
  function Pending(byte: bv8): seq<bv16> {
    var x := byte as bv16;
    [x << 8, x << 9, x << 10, x << 11, x << 12, x << 13, x << 14, x << 15, 0]
  }

  lemma PendingTop(byte: bv8, i: nat)
    requires i < 8
    ensures Top(Pending(byte)[i]) == Bits8(byte)[i]
  {
    match i
    case 0 => case 1 => case 2 => case 3 => case 4 => case 5 => case 6 => case 7 =>
  }

  lemma PendingDouble(byte: bv8, i: nat)
    requires i < 8
    ensures Pending(byte)[i + 1] == Double(Pending(byte)[i])
  {
    match i
    case 0 => case 1 => case 2 => case 3 => case 4 => case 5 => case 6 => case 7 =>
  }

  /** Eight shifts of the register with a byte xored into its top feed the byte's bits. */
  lemma ByteStep(crc: bv16, byte: bv8)
    ensures Iterate(Shift, Xor(crc, Pending(byte)[0]), 8) == Fold(CrcBit, crc, Bits8(byte))
  {
    forall a: bv16, p: bv16 ensures Shift(Xor(a, p)) == Xor(CrcBit(a, Top(p)), Double(p)) {
      ShiftPending(a, p);
    }
    forall i | 0 <= i < 8 ensures Top(Pending(byte)[i]) == Bits8(byte)[i] && Pending(byte)[i + 1] == Double(Pending(byte)[i]) {
      PendingTop(byte, i);
      PendingDouble(byte, i);
    }
    ShiftsFeedBits(Shift, CrcBit, Xor, Top, Double, crc, Bits8(byte), Pending(byte), 8);
    assert Bits8(byte)[..8] == Bits8(byte);
    XorZero(Fold(CrcBit, crc, Bits8(byte)));
  }

  /** The implementation's inner loop: xor the byte into the top, then shift eight times. */
  method CrcByte(crc: bv16, byte: bv8) returns (r: bv16)
    ensures r == Fold(CrcBit, crc, Bits8(byte))
  {
    r := crc ^ ((byte as bv16) << 8);
    assert r == Xor(crc, Pending(byte)[0]);
    ghost var start := r;
    for k := 0 to 8
      invariant r == Iterate(Shift, start, k)
    {
      r := Shift(r);
    }
    ByteStep(crc, byte);
  }

  lemma CrcBytesSnoc(data: seq<bv8>, n: nat)
    requires n < |data|
    ensures CrcBits(ByteBits(data[..n + 1])) == Fold(CrcBit, CrcBits(ByteBits(data[..n])), Bits8(data[n]))
  {
    assert data[..n + 1] == data[..n] + [data[n]];
    ByteBitsSnoc(data[..n], data[n]);
    FoldConcat(CrcBit, 0, ByteBits(data[..n]), Bits8(data[n]));
  }

  /** The byte-wise loop computes the bit-serial remainder. */
  method Crc16Xmodem(data: seq<bv8>) returns (crc: bv16)
    ensures crc == CrcBits(ByteBits(data))
  {
    crc := 0;
    for n := 0 to |data|
      invariant crc == CrcBits(ByteBits(data[..n]))
    {
      crc := CrcByte(crc, data[n]);
      CrcBytesSnoc(data, n);
    }
    assert data[..|data|] == data;
  }

  // ----- validation -----

  function Utf8Len(c: char): nat {
    var n := c as int;
    if n < 0x80 then 1 else if n < 0x800 then 2 else if n < 0x10000 then 3 else 4
  }

  /** The length of `s` in bytes, which is what the implementation measures. */
  function ByteLen(s: string): (n: nat)
    ensures n >= |s|
  {
    if s == "" then 0 else Utf8Len(s[0]) + ByteLen(s[1..])
  }

  lemma AlphabetIsAscii(s: string)
    requires InAlphabet(s)
    ensures ByteLen(s) == |s|
  {
    if s != "" {
      assert Digit(s[0]).Some?;
      assert InAlphabet(s[1..]);
      AlphabetIsAscii(s[1..]);
    }
  }

  function Le16(lo: bv8, hi: bv8): bv16 { (lo as bv16) | ((hi as bv16) << 8) }

  /** `bytes` is what the 56 characters of `s` spell. */
  ghost predicate Spells(s: string, bytes: seq<bv8>) {
    |s| == ACCOUNT_STRKEY_LEN && InAlphabet(s) && |bytes| == ACCOUNT_DECODED_LEN && ByteBits(bytes) == DigitBits(s)
  }

  predicate ChecksumMatches(bytes: seq<bv8>)
    requires |bytes| == ACCOUNT_DECODED_LEN
  {
    CrcBits(ByteBits(bytes[..33])) == Le16(bytes[33], bytes[34])
  }

  ghost predicate ValidAddress(s: string) {
    exists bytes :: Spells(s, bytes) && bytes[0] == ED25519_PUBLIC_KEY_VERSION && ChecksumMatches(bytes)
  }

  method ValidateAccountId(s: string) returns (r: Result<(), StrkeyError>)
    ensures r.Ok? <==> ValidAddress(s)
    ensures r == Err(Length) <==> ByteLen(s) != ACCOUNT_STRKEY_LEN
    ensures r == Err(Alphabet) <==> ByteLen(s) == ACCOUNT_STRKEY_LEN && !InAlphabet(s)
    ensures r == Err(Version) <==> exists bytes :: Spells(s, bytes) && bytes[0] != ED25519_PUBLIC_KEY_VERSION
  {
    if InAlphabet(s) { AlphabetIsAscii(s); }
    if ByteLen(s) != ACCOUNT_STRKEY_LEN { return Err(Length); }
    var decoded := Base32Decode(s);
    if decoded.None? { return Err(Alphabet); }
    var bytes := decoded.value;
    assert DigitBits(s)[..280] == DigitBits(s);
    assert Spells(s, bytes);
    forall other | Spells(s, other) ensures other == bytes { ByteBitsInjective(other, bytes); }
    if bytes[0] != ED25519_PUBLIC_KEY_VERSION { return Err(Version); }
    var crc := Crc16Xmodem(bytes[..33]);
    if crc != Le16(bytes[33], bytes[34]) { return Err(Checksum); }
    return Ok(());
  }

  lemma {:induction false} ByteBitsInjective(x: seq<bv8>, y: seq<bv8>)
    requires ByteBits(x) == ByteBits(y)
    ensures x == y
  {
    assert |x| == |y|;
    if x != [] {
      var n := |x| - 1;
      assert ByteBits(x)[..8 * n] == ByteBits(x[..n]) && ByteBits(y)[..8 * n] == ByteBits(y[..n]);
      assert ByteBits(x)[8 * n..] == Bits8(x[n]) && ByteBits(y)[8 * n..] == Bits8(y[n]);
      WordOfByte(x[n]);
      WordOfByte(y[n]);
      ByteBitsInjective(x[..n], y[..n]);
    }
  }

  // ----- what the checksum is worth -----

  /** Two different five-bit digits differ in some bit. */
  lemma DigitBitsAgree(c: char, d: char)
    requires Digit(c).Some? && Digit(d).Some? && Bits5(Digit(c).value) == Bits5(Digit(d).value)
    ensures c == d
  {
    WordOfDigit(Digit(c).value);
    WordOfDigit(Digit(d).value);
  }

  /** The bits of characters `from..to` are bits `5 * from..5 * to`. */
  lemma {:induction false} DigitBitsSlice(s: string, i: nat)
    requires i < |s| && InAlphabet(s)
    ensures DigitBits(s)[5 * i..5 * i + 5] == Bits5(Digit(s[i]).value)
    decreases |s|
  {
    var n := |s| - 1;
    if i < n {
      DigitBitsSlice(s[..n], i);
      assert DigitBits(s)[5 * i..5 * i + 5] == DigitBits(s[..n])[5 * i..5 * i + 5];
    }
  }

  lemma {:induction false} ByteBitsSlice(s: seq<bv8>, i: nat)
    requires i < |s|
    ensures ByteBits(s)[8 * i..8 * i + 8] == Bits8(s[i])
    decreases |s|
  {
    var n := |s| - 1;
    if i < n {
      ByteBitsSlice(s[..n], i);
      assert ByteBits(s)[8 * i..8 * i + 8] == ByteBits(s[..n])[8 * i..8 * i + 8];
    }
  }

  lemma CrcBitKernel(a: bv16)
    ensures CrcBit(a, false) == 0 <==> a == 0
  {
  }

  /** The checksum of the difference is the difference of the checksums. */
  lemma CrcLinear(x: seq<bool>, y: seq<bool>)
    requires |x| == |y|
    ensures CrcBits(XorBits(x, y)) == Xor(CrcBits(x), CrcBits(y))
  {
    forall a: bv16, b: bv16, p, q ensures CrcBit(Xor(a, b), p != q) == Xor(CrcBit(a, p), CrcBit(b, q)) {
      CrcBitLinear(a, b, p, q);
    }
    XorZero(0);
    FoldLinear(CrcBit, Xor, 0, 0, x, y);
  }

  /** Zeros before a burst change nothing, and zeros after it cannot cancel it. */
  lemma CrcPadding(before: nat, w: seq<bool>, after: nat)
    ensures CrcBits(Zeros(before) + w) == CrcBits(w)
    ensures CrcBits(Zeros(before) + w + Zeros(after)) == 0 <==> CrcBits(w) == 0
  {
    forall a: bv16 ensures CrcBit(a, false) == 0 <==> a == 0 { CrcBitKernel(a); }
    FoldConcat(CrcBit, 0, Zeros(before), w);
    FoldZeros(CrcBit, 0, 0, before);
    FoldConcat(CrcBit, 0, Zeros(before) + w, Zeros(after));
    FoldZeros(CrcBit, 0, CrcBits(Zeros(before) + w), after);
  }

  /** `CrcBit` on machine words. */
  function Step(crc: bv16, b: bool): bv16 {
    if (crc & 0x8000 != 0) != b then (crc << 1) ^ 0x1021 else crc << 1
  }

  function Crc4(a: bool, b: bool, c: bool, d: bool): bv16 {
    Step(Step(Step(Step(0, a), b), c), d)
  }

  function Crc9(a: bool, b: bool, c: bool, d: bool, e: bool, f: bool, g: bool, h: bool, i: bool): bv16 {
    Step(Step(Step(Step(Step(Crc4(a, b, c, d), e), f), g), h), i)
  }

  lemma StepIsCrcBit(crc: bv16, b: bool)
    ensures Step(crc, b) == CrcBit(crc, b)
  {
  }

  lemma CrcPrefix(w: seq<bool>, n: nat)
    requires n < |w|
    ensures CrcBits(w[..n + 1]) == Step(CrcBits(w[..n]), w[n])
  {
    hide Step, CrcBit;
    FoldPrefix(CrcBit, 0, w, n);
    StepIsCrcBit(CrcBits(w[..n]), w[n]);
  }

  lemma Unroll4(w: seq<bool>)
    requires |w| >= 4
    ensures CrcBits(w[..4]) == Crc4(w[0], w[1], w[2], w[3])
  {
    CrcPrefix(w, 0);
    CrcPrefix(w, 1);
    CrcPrefix(w, 2);
    CrcPrefix(w, 3);
  }

  lemma Unroll9(w: seq<bool>)
    requires |w| >= 9
    ensures CrcBits(w[..9]) == Crc9(w[0], w[1], w[2], w[3], w[4], w[5], w[6], w[7], w[8])
  {
    Unroll4(w);
    CrcPrefix(w, 4);
    CrcPrefix(w, 5);
    CrcPrefix(w, 6);
    CrcPrefix(w, 7);
    CrcPrefix(w, 8);
  }

  lemma Burst10(a: bool, b: bool, c: bool, d: bool, e: bool, f: bool, g: bool, h: bool, i: bool, j: bool)
    requires Step(Crc9(a, b, c, d, e, f, g, h, i), j) == 0
    ensures !a && !b && !c && !d && !e && !f && !g && !h && !i && !j
  {
  }

  lemma Burst9(a: bool, b: bool, c: bool, d: bool, e: bool, f: bool, g: bool, h: bool, i: bool)
    requires Crc9(a, b, c, d, e, f, g, h, i) & 0xFF7F == 0
    ensures !a && !b && !c && !d && !e && !f && !g && !h && !i
  {
  }

  lemma Burst4(a: bool, b: bool, c: bool, d: bool)
    requires Crc4(a, b, c, d) & 0xFF03 == 0
    ensures !a && !b && !c && !d
  {
  }

  /** A non-zero burst of ten bits inside the payload has a non-zero checksum. */
  lemma PayloadBurst(w: seq<bool>)
    requires |w| == 10 && CrcBits(w) == 0
    ensures w == Zeros(10)
  {
    Unroll9(w);
    CrcPrefix(w, 9);
    assert w[..10] == w;
    assert CrcBits(w) == Step(Crc9(w[0], w[1], w[2], w[3], w[4], w[5], w[6], w[7], w[8]), w[9]);
    Burst10(w[0], w[1], w[2], w[3], w[4], w[5], w[6], w[7], w[8], w[9]);
  }

  /** The part of a straddling burst that lies in the payload cannot be matched by the part that lies
      in the checksum, whose low byte is stored first. */
  lemma StraddlingBurst(w: seq<bool>)
    requires (|w| == 9 && CrcBits(w) & 0xFF7F == 0) || (|w| == 4 && CrcBits(w) & 0xFF03 == 0)
    ensures w == Zeros(|w|)
  {
    if |w| == 9 {
      Unroll9(w);
      assert w[..9] == w;
      Burst9(w[0], w[1], w[2], w[3], w[4], w[5], w[6], w[7], w[8]);
    } else {
      Unroll4(w);
      assert w[..4] == w;
      Burst4(w[0], w[1], w[2], w[3]);
    }
  }

  /** Two strings of the same length that differ at most at positions `k` and `k + 1`. */
  predicate DifferNear(s: string, t: string, k: nat) {
    |s| == |t| && k + 2 <= |s| && s[..k] == t[..k] && s[k + 2..] == t[k + 2..]
  }

  lemma BitOfDigit(s: string, b: nat)
    requires InAlphabet(s) && b < 5 * |s|
    ensures DigitBits(s)[b] == Bits5(Digit(s[b / 5]).value)[b % 5]
  {
    var i := b / 5;
    DigitBitsSlice(s, i);
    assert DigitBits(s)[b] == DigitBits(s)[5 * i..5 * i + 5][b - 5 * i];
  }

  lemma OutsideWindow(s: string, t: string, k: nat, b: nat)
    requires InAlphabet(s) && InAlphabet(t) && DifferNear(s, t, k)
    requires b < 5 * k || 5 * k + 10 <= b < 5 * |s|
    ensures DigitBits(s)[b] == DigitBits(t)[b]
  {
    BitOfDigit(s, b);
    BitOfDigit(t, b);
    if b / 5 < k {
      assert s[b / 5] == s[..k][b / 5] && t[b / 5] == t[..k][b / 5];
    } else {
      assert s[b / 5] == s[k + 2..][b / 5 - k - 2] && t[b / 5] == t[k + 2..][b / 5 - k - 2];
    }
  }

  lemma {:induction false} DigitBitsInjective(s: string, t: string)
    requires InAlphabet(s) && InAlphabet(t) && DigitBits(s) == DigitBits(t)
    ensures s == t
  {
    assert |s| == |t|;
    forall i | 0 <= i < |s| ensures s[i] == t[i] {
      DigitBitsSlice(s, i);
      DigitBitsSlice(t, i);
      DigitBitsAgree(s[i], t[i]);
    }
  }

  lemma {:induction false} ByteBitsPrefix(bytes: seq<bv8>, n: nat)
    requires n <= |bytes|
    ensures ByteBits(bytes[..n]) == ByteBits(bytes)[..8 * n]
  {
    if n == |bytes| {
      assert bytes[..n] == bytes;
    } else {
      ByteBitsPrefix(bytes[..|bytes| - 1], n);
      assert bytes[..|bytes| - 1][..n] == bytes[..n];
    }
  }

  lemma Bits8Injective(a: bv8, b: bv8)
    requires Bits8(a) == Bits8(b)
    ensures a == b
  {
    WordOfByte(a);
    WordOfByte(b);
  }

  lemma Le16Injective(a: bv8, b: bv8, c: bv8, d: bv8)
    requires Le16(a, b) == Le16(c, d)
    ensures a == c && b == d
  {
  }

  /** Byte `i` is the same in both as soon as its bits are. */
  lemma SameByte(x: seq<bv8>, y: seq<bv8>, i: nat)
    requires |x| == |y| && i < |x|
    requires ByteBits(x)[8 * i..8 * i + 8] == ByteBits(y)[8 * i..8 * i + 8]
    ensures x[i] == y[i]
  {
    ByteBitsSlice(x, i);
    ByteBitsSlice(y, i);
    Bits8Injective(x[i], y[i]);
  }

  /** The payload difference of two valid addresses has the checksum difference as its checksum. */
  lemma ChecksumOfDifference(x: seq<bv8>, y: seq<bv8>)
    requires |x| == |y| == ACCOUNT_DECODED_LEN && ChecksumMatches(x) && ChecksumMatches(y)
    ensures CrcBits(XorBits(ByteBits(x)[..264], ByteBits(y)[..264])) == Xor(Le16(x[33], x[34]), Le16(y[33], y[34]))
  {
    ByteBitsPrefix(x, 33);
    ByteBitsPrefix(y, 33);
    CrcLinear(ByteBits(x)[..264], ByteBits(y)[..264]);
  }

  /** Outside the window the difference of the bit streams is zero. */
  lemma WindowedDifference(p: seq<bool>, q: seq<bool>, at: nat, len: nat)
    requires |p| == |q| && at + len <= |p|
    requires forall b :: 0 <= b < |p| && !(at <= b < at + len) ==> p[b] == q[b]
    ensures XorBits(p, q) == Zeros(at) + XorBits(p[at..at + len], q[at..at + len]) + Zeros(|p| - at - len)
  {
  }

  lemma PayloadCase(s: string, t: string, x: seq<bv8>, y: seq<bv8>, k: nat)
    requires Spells(s, x) && Spells(t, y) && ChecksumMatches(x) && ChecksumMatches(y)
    requires DifferNear(s, t, k) && 5 * k + 10 <= 264
    ensures s == t
  {
    hide ChecksumMatches, Bits8, ByteBits, DigitBits, CrcBits, XorBits, Le16, Zeros;
    var p, q := DigitBits(s), DigitBits(t);
    forall b | 0 <= b < 280 && !(5 * k <= b < 5 * k + 10) ensures p[b] == q[b] { OutsideWindow(s, t, k, b); }
    SameByte(x, y, 33);
    SameByte(x, y, 34);
    ChecksumOfDifference(x, y);
    var w := XorBits(p[5 * k..5 * k + 10], q[5 * k..5 * k + 10]);
    assert p[..264][5 * k..5 * k + 10] == p[5 * k..5 * k + 10] && q[..264][5 * k..5 * k + 10] == q[5 * k..5 * k + 10];
    WindowedDifference(p[..264], q[..264], 5 * k, 10);
    XorSelf(Le16(x[33], x[34]));
    CrcPadding(5 * k, w, 254 - 5 * k);
    PayloadBurst(w);
    SameWindow(s, t, k, w);
  }

  lemma XorSelf(a: bv16)
    ensures Xor(a, a) == 0
  {
  }

  /** If the window's difference is zero the strings are equal. */
  lemma SameWindow(s: string, t: string, k: nat, w: seq<bool>)
    requires |s| == ACCOUNT_STRKEY_LEN && InAlphabet(s) && InAlphabet(t) && DifferNear(s, t, k)
    requires w == XorBits(DigitBits(s)[5 * k..5 * k + 10], DigitBits(t)[5 * k..5 * k + 10]) == Zeros(10)
    ensures s == t
  {
    var p, q := DigitBits(s), DigitBits(t);
    forall b | 0 <= b < 280 ensures p[b] == q[b] {
      if 5 * k <= b < 5 * k + 10 {
        assert w[b - 5 * k] == (p[b] != q[b]) && !w[b - 5 * k];
      } else {
        OutsideWindow(s, t, k, b);
      }
    }
    DigitBitsInjective(s, t);
  }

  lemma ChecksumCase(s: string, t: string, x: seq<bv8>, y: seq<bv8>, k: nat)
    requires Spells(s, x) && Spells(t, y) && ChecksumMatches(x) && ChecksumMatches(y)
    requires DifferNear(s, t, k) && 5 * k >= 264
    ensures s == t
  {
    var p, q := DigitBits(s), DigitBits(t);
    forall b | 0 <= b < 264 ensures p[b] == q[b] { OutsideWindow(s, t, k, b); }
    ByteBitsPrefix(x, 33);
    ByteBitsPrefix(y, 33);
    assert p[..264] == q[..264];
    SamePayload(s, t, x, y);
  }

  /** The payload fixes the checksum, so equal payloads mean equal addresses. */
  lemma SamePayload(s: string, t: string, x: seq<bv8>, y: seq<bv8>)
    requires Spells(s, x) && Spells(t, y)
    requires Le16(x[33], x[34]) == Le16(y[33], y[34])
    requires ByteBits(x[..33]) == ByteBits(y[..33])
    ensures s == t
  {
    Le16Injective(x[33], x[34], y[33], y[34]);
    ByteBitsInjective(x[..33], y[..33]);
    assert x == x[..33] + [x[33], x[34]] && y == y[..33] + [y[33], y[34]];
    DigitBitsInjective(s, t);
  }

  lemma Low7(a: bv8, b: bv8)
    requires (a & 0x40 != 0) == (b & 0x40 != 0) && (a & 0x20 != 0) == (b & 0x20 != 0) && (a & 0x10 != 0) == (b & 0x10 != 0)
    requires (a & 0x8 != 0) == (b & 0x8 != 0) && (a & 0x4 != 0) == (b & 0x4 != 0) && (a & 0x2 != 0) == (b & 0x2 != 0)
    requires (a & 0x1 != 0) == (b & 0x1 != 0)
    ensures a & 0x7F == b & 0x7F
  {
  }

  lemma Low2(a: bv8, b: bv8)
    requires (a & 0x2 != 0) == (b & 0x2 != 0) && (a & 0x1 != 0) == (b & 0x1 != 0)
    ensures a & 0x3 == b & 0x3
  {
  }

  lemma SharedLow7(a: bv8, b: bv8)
    requires forall i :: 1 <= i < 8 ==> Bits8(a)[i] == Bits8(b)[i]
    ensures ((a as bv16) ^ (b as bv16)) & 0xFF7F == 0
  {
    assert Bits8(a)[1] == Bits8(b)[1] && Bits8(a)[2] == Bits8(b)[2] && Bits8(a)[3] == Bits8(b)[3] && Bits8(a)[4] == Bits8(b)[4];
    assert Bits8(a)[5] == Bits8(b)[5] && Bits8(a)[6] == Bits8(b)[6] && Bits8(a)[7] == Bits8(b)[7];
    Low7(a, b);
    MaskedXor(a, b, 0x7F);
  }

  lemma SharedLow2(a: bv8, b: bv8)
    requires forall i :: 6 <= i < 8 ==> Bits8(a)[i] == Bits8(b)[i]
    ensures ((a as bv16) ^ (b as bv16)) & 0xFF03 == 0
  {
    assert Bits8(a)[6] == Bits8(b)[6] && Bits8(a)[7] == Bits8(b)[7];
    Low2(a, b);
    MaskedXor(a, b, 0x3);
  }

  lemma MaskedXor(a: bv8, b: bv8, m: bv8)
    requires a & m == b & m
    ensures ((a as bv16) ^ (b as bv16)) & (0xFF00 | (m as bv16)) == 0
  {
  }

  lemma Le16SameHigh(a: bv8, b: bv8, h: bv8)
    ensures Xor(Le16(a, h), Le16(b, h)) == (a as bv16) ^ (b as bv16)
  {
  }

  /** The payload part of a straddling window has byte 33's difference as its checksum. */
  lemma StraddleChecksum(s: string, t: string, x: seq<bv8>, y: seq<bv8>, k: nat, w: seq<bool>)
    requires Spells(s, x) && Spells(t, y) && ChecksumMatches(x) && ChecksumMatches(y)
    requires DifferNear(s, t, k) && k in {51, 52}
    requires w == XorBits(DigitBits(s)[5 * k..264], DigitBits(t)[5 * k..264])
    ensures CrcBits(w) == (x[33] as bv16) ^ (y[33] as bv16)
  {
    hide ChecksumMatches, Bits8, ByteBits, DigitBits, CrcBits, XorBits, Le16, Zeros;
    var p, q := DigitBits(s), DigitBits(t);
    forall b | 0 <= b < 280 && !(5 * k <= b < 5 * k + 10) ensures p[b] == q[b] { OutsideWindow(s, t, k, b); }
    SameByte(x, y, 34);
    assert p[..264][5 * k..264] == p[5 * k..264] && q[..264][5 * k..264] == q[5 * k..264];
    WindowedDifference(p[..264], q[..264], 5 * k, 264 - 5 * k);
    ChecksumOfDifference(x, y);
    CrcPadding(5 * k, w, 0);
    NoZeros(Zeros(5 * k) + w);
    Le16SameHigh(x[33], y[33], x[34]);
  }

  lemma NoZeros(x: seq<bool>)
    ensures x + Zeros(0) == x
  {
  }

  lemma StraddleLowBits(s: string, t: string, x: seq<bv8>, y: seq<bv8>, k: nat)
    requires Spells(s, x) && Spells(t, y) && DifferNear(s, t, k) && k in {51, 52}
    ensures forall i :: 5 * k - 254 <= i < 8 ==> Bits8(x[33])[i] == Bits8(y[33])[i]
  {
    hide Bits8, ByteBits, DigitBits;
    ByteBitsSlice(x, 33);
    ByteBitsSlice(y, 33);
    forall i | 5 * k - 254 <= i < 8 ensures Bits8(x[33])[i] == Bits8(y[33])[i] {
      OutsideWindow(s, t, k, 264 + i);
      assert Bits8(x[33])[i] == DigitBits(s)[264 + i] && Bits8(y[33])[i] == DigitBits(t)[264 + i];
    }
  }

  /** The window that covers the last payload bits and the first checksum bits. */
  lemma StraddleCase(s: string, t: string, x: seq<bv8>, y: seq<bv8>, k: nat)
    requires Spells(s, x) && Spells(t, y) && ChecksumMatches(x) && ChecksumMatches(y)
    requires DifferNear(s, t, k) && k in {51, 52}
    ensures s == t
  {
    var w := XorBits(DigitBits(s)[5 * k..264], DigitBits(t)[5 * k..264]);
    StraddleChecksum(s, t, x, y, k, w);
    StraddleLowBits(s, t, x, y, k);
    if k == 51 {
      SharedLow7(x[33], y[33]);
    } else {
      SharedLow2(x[33], y[33]);
    }
    StraddlingBurst(w);
    StraddleDone(s, t, x, y, k, w);
  }

  lemma StraddleDone(s: string, t: string, x: seq<bv8>, y: seq<bv8>, k: nat, w: seq<bool>)
    requires Spells(s, x) && Spells(t, y) && ChecksumMatches(x) && ChecksumMatches(y)
    requires DifferNear(s, t, k) && k in {51, 52}
    requires w == XorBits(DigitBits(s)[5 * k..264], DigitBits(t)[5 * k..264]) == Zeros(264 - 5 * k)
    ensures s == t
  {
    var p, q := DigitBits(s), DigitBits(t);
    forall b | 0 <= b < 264 ensures p[b] == q[b] {
      if b < 5 * k {
        OutsideWindow(s, t, k, b);
      } else {
        assert w[b - 5 * k] == (p[b] != q[b]) && !w[b - 5 * k];
      }
    }
    assert p[..264] == q[..264];
    ByteBitsPrefix(x, 33);
    ByteBitsPrefix(y, 33);
    SamePayload(s, t, x, y);
  }

  /** Any corruption confined to two adjacent characters of a valid address is rejected. */
  lemma AdjacentCorruptionIsCaught(s: string, t: string, k: nat)
    requires ValidAddress(s) && DifferNear(s, t, k) && s != t
    ensures !ValidAddress(t)
  {
    if ValidAddress(t) {
      var x :| Spells(s, x) && x[0] == ED25519_PUBLIC_KEY_VERSION && ChecksumMatches(x);
      var y :| Spells(t, y) && y[0] == ED25519_PUBLIC_KEY_VERSION && ChecksumMatches(y);
      if 5 * k + 10 <= 264 {
        PayloadCase(s, t, x, y, k);
      } else if 5 * k >= 264 {
        ChecksumCase(s, t, x, y, k);
      } else {
        StraddleCase(s, t, x, y, k);
      }
    }
  }

  /** Replacing any one character of a valid address by any other character is rejected. */
  lemma TypoIsCaught(s: string, k: nat, c: char)
    requires ValidAddress(s) && k < |s| && c != s[k]
    ensures !ValidAddress(s[k := c])
  {
    var t := s[k := c];
    if k + 2 <= |s| {
      assert s[k + 2..] == t[k + 2..] && s[..k] == t[..k];
      AdjacentCorruptionIsCaught(s, t, k);
    } else {
      assert s[..k - 1] == t[..k - 1] && s[k + 1..] == t[k + 1..];
      AdjacentCorruptionIsCaught(s, t, k - 1);
    }
  }

  /** Swapping two different adjacent characters of a valid address is rejected. */
  lemma TranspositionIsCaught(s: string, k: nat)
    requires ValidAddress(s) && k + 1 < |s| && s[k] != s[k + 1]
    ensures !ValidAddress(s[k := s[k + 1]][k + 1 := s[k]])
  {
    var t := s[k := s[k + 1]][k + 1 := s[k]];
    assert s[k + 2..] == t[k + 2..] && s[..k] == t[..k] && t[k] != s[k];
    AdjacentCorruptionIsCaught(s, t, k);
  }
}

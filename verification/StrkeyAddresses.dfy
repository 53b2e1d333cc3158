/** Which strings are account addresses, in the terms of the encoding itself. */
module StrkeyAddresses {
  import opened Common
  import opened FeedbackRegister
  import opened Strkey
  import Cursors

  // ----- bits to bytes and characters -----

  lemma ByteFor(bits: seq<bool>) returns (b: bv8)
    requires |bits| == 8
    ensures Bits8(b) == bits
  {
    hide Word, Bits8, Pow2;
    assert bits == bits[..8] && bits[8..] == [];
    SplitWord(bits, 0);
    b := ByteOf(Word(bits));
    PopByte(bits, b);
    assert Bits8(b) + [] == Bits8(b);
  }

  lemma {:induction false} BytesFor(bits: seq<bool>, n: nat) returns (bytes: seq<bv8>)
    requires |bits| == 8 * n
    ensures |bytes| == n && ByteBits(bytes) == bits
  {
    hide ByteBits, Bits8;
    if n == 0 {
      bytes := [];
      assert ByteBits([]) == [];
    } else {
      var init := BytesFor(bits[..8 * (n - 1)], n - 1);
      var last := ByteFor(bits[8 * (n - 1)..]);
      bytes := init + [last];
      ByteBitsSnoc(init, last);
      assert bits == bits[..8 * (n - 1)] + bits[8 * (n - 1)..];
    }
  }

  lemma CharFor(bits: seq<bool>) returns (c: char)
    requires |bits| == 5
    ensures Digit(c).Some? && Bits5(Digit(c).value) == bits
  {
    hide Word, Bits5, Pow2;
    WordConcat([], bits);
    assert [] + bits == bits;
    assert Pow2(5) == 32 by { FiveBits(); }
    var v := Word(bits);
    DigitIsPosition(v, ALPHABET[v]);
    c := ALPHABET[v];
    WordOfDigit(v);
    WordInjective(Bits5(v), bits);
  }

  lemma FiveBits()
    ensures Pow2(5) == 32
  {
  }

  lemma {:induction false} StringFor(bits: seq<bool>, n: nat) returns (s: string)
    requires |bits| == 5 * n
    ensures |s| == n && InAlphabet(s) && DigitBits(s) == bits
  {
    hide DigitBits, Bits5, Digit;
    if n == 0 {
      s := "";
      assert DigitBits("") == [];
    } else {
      var init := StringFor(bits[..5 * (n - 1)], n - 1);
      var c := CharFor(bits[5 * (n - 1)..]);
      s := init + [c];
      assert s[..n - 1] == init && s[n - 1] == c;
      DigitBitsPrefix(s, n - 1);
      assert s[..n] == s;
      assert bits == bits[..5 * (n - 1)] + bits[5 * (n - 1)..];
    }
  }

  // ----- the version, in bits and in characters -----

  /** 48, most significant bit first. */
  const VERSION_BITS: seq<bool> := [false, false, true, true, false, false, false, false]

  lemma VersionByte(b: bv8)
    ensures b == ED25519_PUBLIC_KEY_VERSION <==> Bits8(b) == VERSION_BITS
  {
  }

  lemma {:induction false} FirstByte(bytes: seq<bv8>)
    requires bytes != []
    ensures ByteBits(bytes)[..8] == Bits8(bytes[0])
  {
    hide Bits8;
    if |bytes| > 1 {
      FirstByte(bytes[..|bytes| - 1]);
    } else {
      assert ByteBits(bytes[..0]) == [];
    }
  }

  lemma {:induction false} FirstDigit(s: string)
    requires s != "" && InAlphabet(s)
    ensures DigitBits(s)[..5] == Bits5(Digit(s[0]).value)
  {
    hide Bits5, Digit;
    if |s| > 1 {
      FirstDigit(s[..|s| - 1]);
    } else {
      assert DigitBits(s[..0]) == [];
    }
  }

  /** Every 56-character string over the alphabet spells bytes, and its first eight bits are the version byte. */
  lemma SpelledVersion(s: string) returns (bytes: seq<bv8>)
    requires |s| == 56 && InAlphabet(s)
    ensures Spells(s, bytes) && forall other :: Spells(s, other) ==> other == bytes
    ensures bytes[0] == ED25519_PUBLIC_KEY_VERSION <==> DigitBits(s)[..8] == VERSION_BITS
  {
    hide ByteBits, DigitBits, Bits8, Digit;
    bytes := BytesFor(DigitBits(s), 35);
    FirstByte(bytes);
    VersionByte(bytes[0]);
    forall other | Spells(s, other) ensures other == bytes { ByteBitsInjective(other, bytes); }
  }

  /** The wrong version is reported exactly for a well-formed string whose first eight bits are not 00110000. */
  lemma WrongVersionIff(s: string)
    ensures (exists bytes :: Spells(s, bytes) && bytes[0] != ED25519_PUBLIC_KEY_VERSION)
       <==> |s| == 56 && InAlphabet(s) && DigitBits(s)[..8] != VERSION_BITS
  {
    hide ByteBits, DigitBits, Digit;
    if |s| == 56 && InAlphabet(s) {
      var bytes := SpelledVersion(s);
    }
  }

  lemma DigitSix(c: char)
    requires Digit(c).Some? && Bits5(Digit(c).value) == VERSION_BITS[..5]
    ensures c == 'G'
  {
    var v := Digit(c).value;
    assert VERSION_BITS[..5] == [false, false, true, true, false];
    WordOfDigit(v);
    Word5(false, false, true, true, false);
  }

  /** Every account address starts with G. */
  lemma AddressStartsWithG(s: string)
    requires ValidAddress(s)
    ensures |s| == 56 && s[0] == 'G'
  {
    hide ByteBits, DigitBits, Bits5, Digit, ChecksumMatches, Bits8;
    var bytes :| Spells(s, bytes) && bytes[0] == ED25519_PUBLIC_KEY_VERSION && ChecksumMatches(bytes);
    FirstByte(bytes);
    VersionByte(bytes[0]);
    FirstDigit(s);
    assert DigitBits(s)[..5] == DigitBits(s)[..8][..5];
    DigitSix(s[0]);
  }

  // ----- one address for every key -----

  function Low(crc: bv16): bv8 { (crc & 0xFF) as bv8 }

  function High(crc: bv16): bv8 { (crc >> 8) as bv8 }

  lemma HalvesJoin(crc: bv16)
    ensures Le16(Low(crc), High(crc)) == crc
  {
  }

  lemma LittleEndian(crc: bv16, lo: bv8, hi: bv8)
    ensures Le16(lo, hi) == crc <==> lo == Low(crc) && hi == High(crc)
  {
    hide Le16, Low, High;
    HalvesJoin(crc);
    if Le16(lo, hi) == crc { Le16Injective(lo, hi, Low(crc), High(crc)); }
  }

  /** The version byte, the key, and their checksum with the low byte first. */
  function AddressBytes(key: seq<bv8>): seq<bv8> {
    var body := [0x30] + key;
    var crc := CrcBits(ByteBits(body));
    body + [Low(crc), High(crc)]
  }

  lemma AddressBytesMatch(key: seq<bv8>)
    requires |key| == 32
    ensures |AddressBytes(key)| == 35 && AddressBytes(key)[0] == ED25519_PUBLIC_KEY_VERSION && ChecksumMatches(AddressBytes(key))
    ensures AddressBytes(key)[1..33] == key
  {
    hide ByteBits, CrcBits, Low, High, Le16;
    var bytes := AddressBytes(key);
    assert bytes[..33] == [0x30] + key;
    LittleEndian(CrcBits(ByteBits([0x30] + key)), bytes[33], bytes[34]);
  }

  /** A valid address spells exactly these bytes for its key. */
  lemma ValidBytes(bytes: seq<bv8>)
    requires |bytes| == 35 && bytes[0] == ED25519_PUBLIC_KEY_VERSION && ChecksumMatches(bytes)
    ensures bytes == AddressBytes(bytes[1..33])
  {
    hide ByteBits, CrcBits, Low, High, Le16;
    assert bytes[..33] == [0x30] + bytes[1..33];
    LittleEndian(CrcBits(ByteBits(bytes[..33])), bytes[33], bytes[34]);
    assert bytes == bytes[..33] + [bytes[33], bytes[34]];
  }

  /** `s` is an address of `key`. */
  ghost predicate AddressOf(s: string, key: seq<bv8>) { |key| == 32 && Spells(s, AddressBytes(key)) }

  /** The valid addresses are the encodings of 32-byte keys with their version and checksum. */
  lemma ValidIffOfSomeKey(s: string)
    ensures ValidAddress(s) <==> exists key :: AddressOf(s, key)
  {
    hide ByteBits, DigitBits, AddressBytes, ChecksumMatches;
    if ValidAddress(s) {
      var bytes :| Spells(s, bytes) && bytes[0] == ED25519_PUBLIC_KEY_VERSION && ChecksumMatches(bytes);
      ValidBytes(bytes);
      assert AddressOf(s, bytes[1..33]);
    }
    if exists key :: AddressOf(s, key) {
      var key :| AddressOf(s, key);
      AddressBytesMatch(key);
    }
  }

  /** Every key has exactly one address, and it is accepted; different keys have different ones. */
  lemma OneAddressPerKey(key: seq<bv8>) returns (s: string)
    requires |key| == 32
    ensures AddressOf(s, key) && ValidAddress(s)
    ensures forall t :: AddressOf(t, key) ==> t == s
    ensures forall other :: AddressOf(s, other) ==> other == key
  {
    hide ByteBits, DigitBits, AddressBytes, ChecksumMatches, InAlphabet;
    AddressBytesMatch(key);
    s := StringFor(ByteBits(AddressBytes(key)), 56);
    assert AddressOf(s, key);
    ValidIffOfSomeKey(s);
    forall t | AddressOf(t, key) ensures t == s { DigitBitsInjective(s, t); }
    forall other | AddressOf(s, other) ensures other == key {
      AddressBytesMatch(other);
      ByteBitsInjective(AddressBytes(key), AddressBytes(other));
    }
  }

  // ----- lengths in bytes -----

  /** A character is as long as its encoding, and a string as its characters together. */
  lemma ByteLenIs(c: char, s: string)
    requires Cursors.IsScalar(c as int)
    ensures Utf8Len(c) == |Cursors.Utf8(c as int)|
    ensures ByteLen("") == 0 && ByteLen([c] + s) == |Cursors.Utf8(c as int)| + ByteLen(s)
  {
    assert ([c] + s)[1..] == s;
  }

  // ----- a checksum known from elsewhere -----

  /** Four bits into the register. */
  function Four(crc: bv16, a: bool, b: bool, c: bool, d: bool): bv16 { CrcBit(CrcBit(CrcBit(CrcBit(crc, a), b), c), d) }

  /** One byte into the register. */
  function Fed(crc: bv16, b: bv8): bv16 {
    Four(Four(crc, b & 0x80 != 0, b & 0x40 != 0, b & 0x20 != 0, b & 0x10 != 0), b & 0x8 != 0, b & 0x4 != 0, b & 0x2 != 0, b & 0x1 != 0)
  }

  lemma FeedIs(crc: bv16, b: bv8)
    ensures Fold(CrcBit, crc, Bits8(b)) == Fed(crc, b)
  {
    hide CrcBit, Fold, Bits8, Fed;
    Unfold8(CrcBit, crc, Bits8(b));
    FedIs(crc, b);
  }

  lemma FedIs(crc: bv16, b: bv8)
    ensures var w := Bits8(b);
            Fed(crc, b) == CrcBit(CrcBit(CrcBit(CrcBit(CrcBit(CrcBit(CrcBit(CrcBit(crc, w[0]), w[1]), w[2]), w[3]), w[4]), w[5]), w[6]), w[7])
  {
    hide CrcBit;
  }

  function CrcOf(data: seq<bv8>): bv16 { CrcBits(ByteBits(data)) }

  lemma CrcNext(data: seq<bv8>, b: bv8, all: seq<bv8>)
    requires all == data + [b]
    ensures CrcOf(all) == Fed(CrcOf(data), b)
  {
    hide CrcBits, Fed, Bits8, ByteBits, CrcBit, Fold;
    CrcBytesSnoc(all, |data|);
    assert all[..|data|] == data && all[..|all|] == all;
    FeedIs(CrcOf(data), b);
  }

  /** The check value of CRC-16/XMODEM: the checksum of the ASCII digits 1 to 9. */
  lemma CheckValue()
    ensures CrcOf([0x31, 0x32, 0x33, 0x34, 0x35, 0x36, 0x37, 0x38, 0x39]) == 0x31C3
  {
    hide CrcOf, Fed;
    var data: seq<bv8> := [0x31, 0x32, 0x33, 0x34, 0x35, 0x36, 0x37, 0x38, 0x39];
    CrcOfNothing();
    FedDigits();
    CrcNext([], 0x31, data[..1]);
    CrcNext(data[..1], 0x32, data[..2]);
    CrcNext(data[..2], 0x33, data[..3]);
    CrcNext(data[..3], 0x34, data[..4]);
    CrcNext(data[..4], 0x35, data[..5]);
    CrcNext(data[..5], 0x36, data[..6]);
    CrcNext(data[..6], 0x37, data[..7]);
    CrcNext(data[..7], 0x38, data[..8]);
    CrcNext(data[..8], 0x39, data);
  }

  lemma CrcOfNothing()
    ensures CrcOf([]) == 0
  {
  }

  lemma FedDigits()
    ensures Fed(0, 0x31) == 0x2672 && Fed(0x2672, 0x32) == 0x20B5 && Fed(0x20B5, 0x33) == 0x9752
    ensures Fed(0x9752, 0x34) == 0xD789 && Fed(0xD789, 0x35) == 0x546C && Fed(0x546C, 0x36) == 0x20E4
    ensures Fed(0x20E4, 0x37) == 0x86D6 && Fed(0x86D6, 0x38) == 0x9015 && Fed(0x9015, 0x39) == 0x31C3
  {
  }
}

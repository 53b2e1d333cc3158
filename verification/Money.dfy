/** Amounts: decimal strings to integer stroops and back. */
module Money {
  import opened Common

  const STROOPS_PER_UNIT: int := 10_000_000
  const MAX_DECIMALS := 7

  // ----- numerals -----

  predicate IsDigit(c: char) { '0' <= c <= '9' }

  predicate AllDigits(s: string) { forall i :: 0 <= i < |s| ==> IsDigit(s[i]) }

  function Pow10(k: nat): (p: nat)
    ensures p > 0
  {
    if k == 0 then 1 else 10 * Pow10(k - 1)
  }

  /** The number a run of digits denotes; the empty run denotes zero. */
  function Numeral(s: string): nat
    requires AllDigits(s)
  {
    if s == "" then 0 else Numeral(s[..|s| - 1]) * 10 + (s[|s| - 1] as int - '0' as int)
  }

  function DigitChar(d: nat): (c: char)
    requires d < 10
    ensures IsDigit(c)
  {
    '0' + d as char
  }

  function Zeros(k: nat): (z: string)
    ensures |z| == k && AllDigits(z)
  {
    seq(k, i => '0')
  }

  lemma TimesTen(a: int, b: int)
    ensures a * (10 * b) == 10 * (a * b)
  {
  }

  lemma {:induction false} NumeralConcat(a: string, b: string)
    requires AllDigits(a) && AllDigits(b)
    ensures AllDigits(a + b)
    ensures Numeral(a + b) == Numeral(a) * Pow10(|b|) + Numeral(b)
    ensures Numeral(b) < Pow10(|b|)
  {
    if b == "" {
      assert a + b == a;
    } else {
      var b', d := b[..|b| - 1], b[|b| - 1] as int - '0' as int;
      NumeralConcat(a, b');
      assert (a + b)[..|a + b| - 1] == a + b';
      assert Numeral(a + b) == Numeral(a + b') * 10 + d && Numeral(b) == Numeral(b') * 10 + d && Pow10(|b|) == 10 * Pow10(|b'|);
      hide Numeral, Pow10;
      TimesTen(Numeral(a), Pow10(|b'|));
    }
  }

  lemma {:induction false} NumeralZeros(k: nat)
    ensures Numeral(Zeros(k)) == 0
  {
    if k > 0 {
      assert Zeros(k)[..k - 1] == Zeros(k - 1);
      NumeralZeros(k - 1);
    }
  }

  lemma {:induction false} Pow10Add(a: nat, b: nat)
    ensures Pow10(a + b) == Pow10(a) * Pow10(b)
  {
    if b > 0 {
      Pow10Add(a, b - 1);
      TimesTen(Pow10(a), Pow10(b - 1));
    }
  }

  // ----- parsing -----

  /** Unicode White_Space, which `str::trim` removes. */
  predicate IsSpace(c: char) {
    var n := c as int;
    9 <= n <= 13 || n == 0x20 || n == 0x85 || n == 0xA0 || n == 0x1680 || 0x2000 <= n <= 0x200A
    || n == 0x2028 || n == 0x2029 || n == 0x202F || n == 0x205F || n == 0x3000
  }

  function TrimStart(s: string): string {
    if s != "" && IsSpace(s[0]) then TrimStart(s[1..]) else s
  }

  function TrimEnd(s: string): string {
    if s != "" && IsSpace(s[|s| - 1]) then TrimEnd(s[..|s| - 1]) else s
  }

  function Trim(s: string): string { TrimEnd(TrimStart(s)) }

  /** The integer and the fractional digits, as written. */
  function Segments(s: string): (string, string) {
    match SplitOnce(Trim(s), '.')
    case Some(parts) => parts
    case None => (Trim(s), "")
  }

  /** The right-padded fraction reads as stroops. */
  function Padded(frac: string): string
    requires |frac| <= MAX_DECIMALS
  {
    frac + Zeros(MAX_DECIMALS - |frac|)
  }

  /** What the parser returns, as an expression; `Parse` below is its meaning. */
  function Parse(input: string): (r: Option<int>)
    ensures r.Some? ==> 0 < r.value <= I64_MAX
  {
    var (whole, frac) := Segments(input);
    if Trim(input) == "" || !AllDigits(whole) || !AllDigits(frac) || (whole == "" && frac == "") || |frac| > MAX_DECIMALS then None
    else
      var stroops := Numeral(whole) * STROOPS_PER_UNIT + (NumeralConcat(frac, Zeros(MAX_DECIMALS - |frac|)); Numeral(Padded(frac)));
      if Numeral(whole) > I64_MAX || stroops > I64_MAX || stroops <= 0 then None else Some(stroops)
  }

  method ParseStroops(input: string) returns (r: Option<int>)
    ensures r == Parse(input)
  {
    var s := Trim(input);
    if s == "" { return None; }
    var split := SplitOnce(s, '.');
    var intPart, fracPart := s, "";
    if split.Some? { intPart, fracPart := split.value.0, split.value.1; }
    if !AllDigits(intPart) || !AllDigits(fracPart) { return None; }
    if intPart == "" && fracPart == "" { return None; }
    if |fracPart| > MAX_DECIMALS { return None; }
    var intVal := Numeral(intPart);
    if intVal > I64_MAX { return None; }
    var frac := fracPart;
    while |frac| < MAX_DECIMALS
      invariant |fracPart| <= |frac| <= MAX_DECIMALS
      invariant frac == fracPart + Zeros(|frac| - |fracPart|)
    {
      assert Zeros(|frac| - |fracPart|) + ['0'] == Zeros(|frac| + 1 - |fracPart|);
      frac := frac + ['0'];
    }
    assert frac == Padded(fracPart);
    NumeralConcat(fracPart, Zeros(MAX_DECIMALS - |fracPart|));
    var fracVal := Numeral(frac);
    var product := intVal * STROOPS_PER_UNIT;
    if product > I64_MAX { return None; }
    var stroops := product + fracVal;
    if stroops > I64_MAX || stroops <= 0 { return None; }
    return Some(stroops);
  }

  /** `s`, trimmed, is written with the digits `whole` before the point and `frac` after it. */
  ghost predicate Written(s: string, whole: string, frac: string) {
    && AllDigits(whole) && AllDigits(frac) && whole + frac != "" && |frac| <= MAX_DECIMALS
    && (Trim(s) == whole + "." + frac || (frac == "" && Trim(s) == whole))
  }

  /** `s` denotes the decimal number `stroops / 10^7`, with at most seven decimals. */
  ghost predicate Denotes(s: string, stroops: int) {
    exists whole, frac ::
      Written(s, whole, frac) && AllDigits(whole + frac)
      && Numeral(whole + frac) * Pow10(MAX_DECIMALS - |frac|) == stroops
  }

  lemma SegmentsOfWritten(s: string, whole: string, frac: string)
    requires Written(s, whole, frac)
    ensures Segments(s) == (whole, frac)
  {
    if Trim(s) == whole + "." + frac {
      SplitOnceOfConcat(whole, '.', frac);
    }
  }

  lemma {:induction false} AppendZeros(frac: string, k: nat)
    requires AllDigits(frac)
    ensures AllDigits(frac + Zeros(k)) && Numeral(frac + Zeros(k)) == Numeral(frac) * Pow10(k)
  {
    if k == 0 {
      assert frac + Zeros(0) == frac;
    } else {
      AppendZeros(frac, k - 1);
      assert (frac + Zeros(k))[..|frac| + k - 1] == frac + Zeros(k - 1);
      TimesTen(Numeral(frac), Pow10(k - 1));
    }
  }

  lemma PaddedValue(whole: string, frac: string)
    requires AllDigits(whole) && AllDigits(frac) && |frac| <= MAX_DECIMALS
    ensures AllDigits(whole + frac) && AllDigits(Padded(frac))
    ensures Numeral(whole) * STROOPS_PER_UNIT + Numeral(Padded(frac)) == Numeral(whole + frac) * Pow10(MAX_DECIMALS - |frac|)
  {
    var k := MAX_DECIMALS - |frac|;
    AppendZeros(frac, k);
    NumeralConcat(whole, frac);
    UnitSplit(|frac|, k);
    assert Padded(frac) == frac + Zeros(k);
    hide Numeral, Pow10, Padded, Zeros;
    Combine(Numeral(whole), Numeral(frac), Pow10(|frac|), Pow10(k), STROOPS_PER_UNIT, Numeral(whole + frac), Numeral(Padded(frac)));
  }

  lemma UnitSplit(a: nat, b: nat)
    requires a + b == MAX_DECIMALS
    ensures Pow10(a) * Pow10(b) == STROOPS_PER_UNIT
  {
    Pow10Add(a, b);
    assert Pow10(4) == 10_000;
    assert Pow10(7) == 10_000_000;
  }

  lemma Combine(w: int, f: int, p: int, q: int, unit: int, n: int, x: int)
    requires p * q == unit && n == w * p + f && x == f * q
    ensures w * unit + x == n * q
  {
    assert (w * p + f) * q == w * (p * q) + f * q;
  }

  lemma DenotesOfParse(s: string)
    requires Parse(s).Some?
    ensures Denotes(s, Parse(s).value)
  {
    var (whole, frac) := Segments(s);
    PaddedValue(whole, frac);
    assert Written(s, whole, frac);
  }

  lemma ParseOfDenotes(s: string, n: int)
    requires Denotes(s, n) && 0 < n <= I64_MAX
    ensures Parse(s) == Some(n)
  {
    var whole, frac :| Written(s, whole, frac) && AllDigits(whole + frac)
      && Numeral(whole + frac) * Pow10(MAX_DECIMALS - |frac|) == n;
    PaddedValue(whole, frac);
    ParseOfWritten(s, whole, frac);
  }

  lemma ParseOfWritten(s: string, whole: string, frac: string)
    requires Written(s, whole, frac)
    requires AllDigits(Padded(frac))
    requires 0 < Numeral(whole) * STROOPS_PER_UNIT + Numeral(Padded(frac)) <= I64_MAX
    ensures Parse(s) == Some(Numeral(whole) * STROOPS_PER_UNIT + Numeral(Padded(frac)))
  {
    SegmentsOfWritten(s, whole, frac);
  }

  lemma DenotesUnique(s: string, n: int, m: int)
    requires Denotes(s, n) && Denotes(s, m)
    ensures n == m
  {
    var w, f :| Written(s, w, f) && AllDigits(w + f) && Numeral(w + f) * Pow10(MAX_DECIMALS - |f|) == n;
    var v, g :| Written(s, v, g) && AllDigits(v + g) && Numeral(v + g) * Pow10(MAX_DECIMALS - |g|) == m;
    SegmentsOfWritten(s, w, f);
    SegmentsOfWritten(s, v, g);
  }

  /** Parsing succeeds exactly on the strings that denote a positive amount that fits, and returns it. */
  lemma ParseIffDenotes(s: string, n: int)
    ensures Parse(s) == Some(n) <==> Denotes(s, n) && 0 < n <= I64_MAX
  {
    if Parse(s) == Some(n) { DenotesOfParse(s); }
    if Denotes(s, n) && 0 < n <= I64_MAX { ParseOfDenotes(s, n); }
  }

  // ----- printing -----

  /** Rust's `/` and `%` on signed integers truncate towards zero. */
  function TruncDiv(a: int, d: nat): int requires d > 0 { if a >= 0 then a / d else -((-a) / d) }

  function TruncMod(a: int, d: nat): int requires d > 0 { if a >= 0 then a % d else -((-a) % d) }

  /** The shortest numeral for `n`. */
  function Digits(n: nat): (s: string)
    ensures AllDigits(s) && s != "" && Numeral(s) == n
    ensures |s| > 1 ==> Pow10(|s| - 1) <= n
  {
    if n < 10 then [DigitChar(n)]
    else
      var s := Digits(n / 10);
      assert (s + [DigitChar(n % 10)])[..|s|] == s;
      assert Pow10(|s|) == 10 * Pow10(|s| - 1);
      s + [DigitChar(n % 10)]
  }

  /** `{n}` */
  function Show(n: int): string { if n < 0 then "-" + Digits(-n) else Digits(n) }

  /** `{n:07}`: zeros go between the sign and the digits, and the sign counts towards the width. */
  function Show7(n: int): string {
    var d := Digits(if n < 0 then -n else n);
    var width := if n < 0 then 6 else 7;
    (if n < 0 then "-" else "") + Zeros(Max(0, width - |d|)) + d
  }

  function TrimZeros(s: string): string {
    if s != "" && s[|s| - 1] == '0' then TrimZeros(s[..|s| - 1]) else s
  }

  lemma {:induction false} TrimZerosPads(s: string)
    ensures |TrimZeros(s)| <= |s| && TrimZeros(s) + Zeros(|s| - |TrimZeros(s)|) == s
    ensures TrimZeros(s) != "" ==> TrimZeros(s)[|TrimZeros(s)| - 1] != '0'
  {
    if s != "" && s[|s| - 1] == '0' {
      var init := s[..|s| - 1];
      TrimZerosPads(init);
      var n := |init| - |TrimZeros(init)|;
      assert Zeros(n) + ['0'] == Zeros(n + 1);
      assert TrimZeros(init) + (Zeros(n) + ['0']) == TrimZeros(init) + Zeros(n) + ['0'];
      assert s == init + ['0'];
    } else {
      assert s + Zeros(0) == s;
    }
  }

  /** `stroops_to_string` */
  function Print(stroops: int): string {
    var whole := TruncDiv(stroops, STROOPS_PER_UNIT);
    var frac := TruncMod(stroops, STROOPS_PER_UNIT);
    if frac == 0 then Show(whole) else Show(whole) + "." + TrimZeros(Show7(frac))
  }

  lemma {:induction false} TrimNoSpace(s: string)
    requires s == "" || (!IsSpace(s[0]) && !IsSpace(s[|s| - 1]))
    ensures Trim(s) == s
  {
  }

  lemma {:induction false} NumeralLength(s: string, k: nat)
    requires AllDigits(s) && Numeral(s) < Pow10(k) && (|s| > 1 ==> Pow10(|s| - 1) <= Numeral(s)) && k > 0
    ensures |s| <= k
  {
    if |s| > k {
      Pow10Monotone(k, |s| - 1);
    }
  }

  lemma {:induction false} Pow10Monotone(a: nat, b: nat)
    requires a <= b
    ensures Pow10(a) <= Pow10(b)
  {
    if a < b { Pow10Monotone(a, b - 1); }
  }

  /** For a fraction of a unit, the padded digits are exactly seven and read as the fraction. */
  lemma Show7Value(frac: int)
    requires 0 <= frac < STROOPS_PER_UNIT
    ensures AllDigits(Show7(frac)) && |Show7(frac)| == 7 && Numeral(Show7(frac)) == frac
  {
    var d := Digits(frac);
    assert Pow10(4) == 10_000;
    assert Pow10(7) == 10_000_000;
    NumeralLength(d, 7);
    NumeralConcat(Zeros(7 - |d|), d);
    NumeralZeros(7 - |d|);
    assert Show7(frac) == Zeros(7 - |d|) + d;
  }

  /** The digits that `Print` writes after the point, for a count that is not negative. */
  function FracDigits(n: nat): string {
    if n % STROOPS_PER_UNIT == 0 then "" else TrimZeros(Show7(n % STROOPS_PER_UNIT))
  }

  lemma FracDigitsValue(n: nat)
    ensures AllDigits(FracDigits(n)) && |FracDigits(n)| <= MAX_DECIMALS
    ensures Padded(FracDigits(n)) == Show7(n % STROOPS_PER_UNIT)
    ensures n % STROOPS_PER_UNIT != 0 ==> FracDigits(n) != "" && FracDigits(n)[|FracDigits(n)| - 1] != '0'
  {
    var frac := n % STROOPS_PER_UNIT;
    Show7Value(frac);
    TrimZerosPads(Show7(frac));
    NumeralZeros(7);
    var t := FracDigits(n);
    if frac == 0 {
      NumeralInjective(Zeros(7), Show7(0));
      assert "" + Zeros(7) == Zeros(7);
    } else {
      assert t + Zeros(7 - |t|) == Show7(frac);
      assert forall i :: 0 <= i < |t| ==> t[i] == Show7(frac)[i];
      assert "" + Zeros(7) == Zeros(7);
    }
  }

  lemma PrintWritten(n: nat)
    ensures Written(Print(n), Digits(n / STROOPS_PER_UNIT), FracDigits(n))
    ensures FracDigits(n) == "" ==> Print(n) == Digits(n / STROOPS_PER_UNIT)
    ensures FracDigits(n) != "" ==> Print(n) == Digits(n / STROOPS_PER_UNIT) + "." + FracDigits(n)
  {
    var whole, frac := Digits(n / STROOPS_PER_UNIT), FracDigits(n);
    FracDigitsValue(n);
    hide Digits, FracDigits, Show7, TrimZeros, Trim;
    if frac == "" {
      TrimNoSpace(whole);
      PrintForm(n);
    } else {
      TrimNoSpace(whole + "." + frac);
      PrintForm(n);
    }
  }

  lemma PrintForm(n: nat)
    ensures Print(n) == if n % STROOPS_PER_UNIT == 0 then Digits(n / STROOPS_PER_UNIT)
                        else Digits(n / STROOPS_PER_UNIT) + "." + FracDigits(n)
  {
  }

  lemma ParsePositive(n: int)
    requires 0 < n <= I64_MAX
    ensures Parse(Print(n)) == Some(n)
  {
    PrintWritten(n);
    FracDigitsValue(n);
    Show7Value(n % STROOPS_PER_UNIT);
    hide Parse, Print, Written, FracDigits, Show7, Padded, Numeral;
    assert n == (n / STROOPS_PER_UNIT) * STROOPS_PER_UNIT + n % STROOPS_PER_UNIT;
    ParseOfWritten(Print(n), Digits(n / STROOPS_PER_UNIT), FracDigits(n));
  }

  /** A minus sign in front of either segment is not a digit. */
  lemma ParseSigned(s: string, whole: string, frac: string)
    requires s == whole + "." + frac || (s == whole && frac == "")
    requires s != "" && Trim(s) == s && '.' !in whole
    requires (whole != "" && whole[0] == '-') || (frac != "" && frac[0] == '-')
    ensures Parse(s) == None
  {
    if s == whole + "." + frac { SplitOnceOfConcat(whole, '.', frac); }
  }

  lemma ParseNegative(n: int)
    requires n < 0
    ensures Parse(Print(n)) == None
  {
    var whole, frac := TruncDiv(n, STROOPS_PER_UNIT), TruncMod(n, STROOPS_PER_UNIT);
    var w, t := Show(whole), TrimZeros(Show7(frac));
    if frac == 0 {
      TrimNoSpace(w);
      ParseSigned(w, w, "");
    } else {
      TrimmedMinus(frac);
      TrimNoSpace(w + "." + t);
      hide TrimZeros, Show7, Digits, Trim, Parse;
      ParseSigned(w + "." + t, w, t);
    }
  }

  lemma TrimmedMinus(frac: int)
    requires frac < 0
    ensures TrimZeros(Show7(frac)) != "" && TrimZeros(Show7(frac))[0] == '-'
    ensures !IsSpace(TrimZeros(Show7(frac))[|TrimZeros(Show7(frac))| - 1])
  {
    var s, t := Show7(frac), TrimZeros(Show7(frac));
    TrimZerosPads(s);
    assert s[0] == '-';
    assert (t + Zeros(|s| - |t|))[0] == '-';
    assert forall i :: 1 <= i < |s| ==> IsDigit(s[i]);
    assert t[|t| - 1] == s[|t| - 1];
  }

  /** Printing then parsing gives back every positive amount, and nothing else is accepted. */
  lemma ParsePrint(n: int)
    requires I64_MIN <= n <= I64_MAX
    ensures Parse(Print(n)) == if n > 0 then Some(n) else None
  {
    if n > 0 {
      ParsePositive(n);
    } else if n < 0 {
      ParseNegative(n);
    } else {
      PrintWritten(0);
      SegmentsOfWritten(Print(0), Digits(0), "");
      NumeralZeros(7);
      assert Padded("") == Zeros(7);
    }
  }

  // ----- the canonical form -----

  /** The form every stored and reported amount is put into. */
  function Canonical(s: string): Option<string> {
    match Parse(s)
    case None => None
    case Some(n) => Some(Print(n))
  }

  lemma CanonicalIsFixpoint(s: string)
    requires Canonical(s).Some?
    ensures Canonical(Canonical(s).value) == Canonical(s)
    ensures Parse(Canonical(s).value) == Parse(s)
  {
    ParsePrint(Parse(s).value);
  }

  /** Two accepted strings have the same canonical form exactly when they denote the same amount. */
  lemma CanonicalIffSameAmount(s: string, t: string)
    requires Parse(s).Some? && Parse(t).Some?
    ensures Canonical(s) == Canonical(t) <==> exists n :: Denotes(s, n) && Denotes(t, n)
  {
    var n, m := Parse(s).value, Parse(t).value;
    ParsePrint(n);
    ParsePrint(m);
    DenotesOfParse(s);
    DenotesOfParse(t);
    forall k | Denotes(s, k) && Denotes(t, k) ensures n == k == m { DenotesUnique(s, n, k); DenotesUnique(t, m, k); }
  }

  lemma {:induction false} NumeralInjective(a: string, b: string)
    requires AllDigits(a) && AllDigits(b) && |a| == |b| && Numeral(a) == Numeral(b)
    ensures a == b
  {
    if a != "" {
      var k := |a| - 1;
      NumeralInjective(a[..k], b[..k]);
      assert a == a[..k] + [a[k]] && b == b[..k] + [b[k]];
    }
  }

  /** The digits before and after the point are the quotient and the remainder. */
  lemma SegmentsAreQuotientAndRemainder(whole: string, frac: string, n: nat)
    requires AllDigits(whole) && AllDigits(frac) && |frac| <= MAX_DECIMALS && AllDigits(Padded(frac))
    requires n == Numeral(whole) * STROOPS_PER_UNIT + Numeral(Padded(frac))
    ensures Numeral(whole) == n / STROOPS_PER_UNIT
    ensures Padded(frac) == Show7(n % STROOPS_PER_UNIT)
  {
    SevenDigits(Padded(frac));
    DivModUnique(Numeral(whole), Numeral(Padded(frac)), STROOPS_PER_UNIT);
    Show7Value(n % STROOPS_PER_UNIT);
    NumeralInjective(Padded(frac), Show7(n % STROOPS_PER_UNIT));
  }

  lemma SevenDigits(s: string)
    requires AllDigits(s) && |s| == 7
    ensures Numeral(s) < STROOPS_PER_UNIT
  {
    NumeralConcat("", s);
    assert "" + s == s;
    assert Pow10(4) == 10_000;
    assert Pow10(7) == STROOPS_PER_UNIT;
  }

  /** The digits of an accepted string read as its amount. */
  lemma WrittenValue(s: string, whole: string, frac: string, n: nat)
    requires Written(s, whole, frac) && Parse(s) == Some(n)
    ensures AllDigits(Padded(frac)) && n == Numeral(whole) * STROOPS_PER_UNIT + Numeral(Padded(frac))
  {
    hide Numeral, Trim, SplitOnce;
    SegmentsOfWritten(s, whole, frac);
    NumeralConcat(frac, Zeros(MAX_DECIMALS - |frac|));
  }

  lemma FewestDecimals(whole: string, frac: string, n: nat)
    requires AllDigits(whole) && AllDigits(frac) && |frac| <= MAX_DECIMALS && AllDigits(Padded(frac))
    requires n == Numeral(whole) * STROOPS_PER_UNIT + Numeral(Padded(frac))
    ensures |FracDigits(n)| <= |frac|
  {
    hide Numeral, FracDigits, Show7, Padded;
    SegmentsAreQuotientAndRemainder(whole, frac, n);
    FracDigitsValue(n);
    NoTrailingZeroIsShorter(FracDigits(n), frac);
    if n % STROOPS_PER_UNIT == 0 { NoFraction(n); }
  }

  lemma NoFraction(n: nat)
    requires n % STROOPS_PER_UNIT == 0
    ensures FracDigits(n) == ""
  {
  }

  lemma FewestDigits(whole: string, n: nat)
    requires AllDigits(whole) && whole != "" && Numeral(whole) == n
    ensures |Digits(n)| <= |whole|
  {
    hide Pow10;
    NumeralConcat("", whole);
    assert "" + whole == whole;
    NumeralLength(Digits(n), |whole|);
  }

  /** No string that is accepted for an amount has fewer decimals than `Print` writes; and none with a digit before the
      point is shorter. */
  lemma PrintIsMinimal(s: string, whole: string, frac: string, n: nat)
    requires Written(s, whole, frac) && Parse(s) == Some(n)
    ensures Written(Print(n), Digits(n / STROOPS_PER_UNIT), FracDigits(n))
    ensures |FracDigits(n)| <= |frac|
    ensures whole != "" ==> |Print(n)| <= |Trim(s)|
  {
    hide Print, Digits, FracDigits, Show7, Padded, Trim, Numeral, Parse;
    WrittenValue(s, whole, frac, n);
    FewestDecimals(whole, frac, n);
    SegmentsAreQuotientAndRemainder(whole, frac, n);
    PrintWritten(n);
    if whole != "" { FewestDigits(whole, n / STROOPS_PER_UNIT); }
  }

  lemma NoTrailingZeroIsShorter(t: string, frac: string)
    requires |t| <= MAX_DECIMALS && |frac| <= MAX_DECIMALS && Padded(t) == Padded(frac)
    ensures |t| > |frac| ==> t[|t| - 1] == '0'
  {
    if |t| > |frac| {
      assert Padded(frac)[|t| - 1] == '0' && Padded(t)[|t| - 1] == t[|t| - 1];
    }
  }

  // ----- trimming, and amounts known from the documentation -----

  /** The 25 characters that Unicode calls white space. */
  const WHITE_SPACE: seq<int> := [
    0x9, 0xA, 0xB, 0xC, 0xD, 0x20, 0x85, 0xA0, 0x1680, 0x2000, 0x2001, 0x2002, 0x2003, 0x2004, 0x2005, 0x2006, 0x2007, 0x2008,
    0x2009, 0x200A, 0x2028, 0x2029, 0x202F, 0x205F, 0x3000]

  lemma WhiteSpaceIs(c: char)
    ensures |WHITE_SPACE| == 25 && (IsSpace(c) <==> c as int in WHITE_SPACE)
  {
  }

  predicate AllSpace(s: string) { forall c :: c in s ==> IsSpace(c) }

  /** Trimming takes off exactly the white space at both ends. */
  lemma {:induction false} TrimIs(s: string) returns (before: string, after: string)
    ensures s == before + Trim(s) + after && AllSpace(before) && AllSpace(after)
    ensures Trim(s) != "" ==> !IsSpace(Trim(s)[0]) && !IsSpace(Trim(s)[|Trim(s)| - 1])
  {
    hide IsSpace;
    before := TrimsStart(s);
    after := TrimsEnd(TrimStart(s));
    if Trim(s) != "" { assert TrimStart(s)[0] == Trim(s)[0]; }
    assert before + (Trim(s) + after) == before + Trim(s) + after;
  }

  lemma {:induction false} TrimsStart(s: string) returns (before: string)
    ensures s == before + TrimStart(s) && AllSpace(before)
    ensures TrimStart(s) != "" ==> !IsSpace(TrimStart(s)[0])
  {
    hide IsSpace;
    if s != "" && IsSpace(s[0]) {
      var rest := TrimsStart(s[1..]);
      before := [s[0]] + rest;
    } else {
      before := "";
    }
  }

  lemma {:induction false} TrimsEnd(s: string) returns (after: string)
    ensures s == TrimEnd(s) + after && AllSpace(after)
    ensures TrimEnd(s) != "" ==> !IsSpace(TrimEnd(s)[|TrimEnd(s)| - 1])
  {
    hide IsSpace;
    if s != "" && IsSpace(s[|s| - 1]) {
      var rest := TrimsEnd(s[..|s| - 1]);
      after := rest + [s[|s| - 1]];
    } else {
      after := "";
    }
  }

  lemma NumeralOf2(a: char, b: char)
    requires IsDigit(a) && IsDigit(b)
    ensures AllDigits([a, b]) && Numeral([a, b]) == (a as int - '0' as int) * 10 + (b as int - '0' as int)
  {
    assert [a, b][..1] == [a] && [a][..0] == "";
    assert Numeral([a]) == a as int - '0' as int;
  }

  /** The examples in the documentation. */
  lemma DocumentedAmounts()
    ensures Parse("1") == Some(10_000_000) && Parse("10.50") == Some(105_000_000)
    ensures Parse("0") == None && Parse("-1") == None && Parse("1.00000001") == None
    ensures Print(10_000_000) == "1" && Print(5_000_000) == "0.5"
  {
    hide Parse, Print;
    OneUnit();
    TenAndAHalf();
    NotAmounts();
    OnePrints();
    HalfPrints();
  }

  lemma SevenZeros()
    ensures Pow10(7) == 10_000_000 && Pow10(5) == 100_000
  {
    assert Pow10(4) == 10_000;
  }

  lemma NumeralOf1(a: char)
    requires IsDigit(a)
    ensures AllDigits([a]) && Numeral([a]) == a as int - '0' as int
  {
    assert [a][..0] == "";
  }

  lemma OneUnit()
    ensures Parse("1") == Some(10_000_000)
  {
    hide Parse, Numeral, Trim, Pow10;
    NumeralOf1('1');
    TrimNoSpace("1");
    SevenZeros();
    assert "1" + "" == "1";
    assert Written("1", "1", "");
    assert Denotes("1", 10_000_000);
    ParseOfDenotes("1", 10_000_000);
  }

  lemma TenAndAHalf()
    ensures Parse("10.50") == Some(105_000_000)
  {
    hide Parse, Numeral, Trim, Pow10;
    NumeralOf2('1', '0');
    NumeralOf2('5', '0');
    NumeralConcat("10", "50");
    HundredIs();
    TrimNoSpace("10.50");
    SevenZeros();
    assert "10" + "." + "50" == "10.50";
    assert Written("10.50", "10", "50");
    assert Denotes("10.50", 105_000_000);
    ParseOfDenotes("10.50", 105_000_000);
  }

  lemma HundredIs()
    ensures Pow10(2) == 100
  {
  }

  lemma NotAmounts()
    ensures Parse("0") == None && Parse("-1") == None && Parse("1.00000001") == None
  {
    hide Trim, Numeral;
    TrimNoSpace("0");
    TrimNoSpace("-1");
    TrimNoSpace("1.00000001");
    NumeralOf1('0');
    NumeralZeros(7);
    assert Padded("") == Zeros(7);
    SplitOnceOfConcat("1", '.', "00000001");
    assert "1" + ['.'] + "00000001" == "1.00000001";
    assert "-1"[0] == '-';
  }

  lemma OnePrints()
    ensures Print(10_000_000) == "1"
  {
    hide TrimZeros, Show7, FracDigits;
    PrintForm(10_000_000);
    assert Digits(1) == "1";
  }

  lemma HalfPrints()
    ensures Print(5_000_000) == "0.5"
  {
    hide Print, TrimZeros, Show7, FracDigits, Numeral, Pow10;
    var t := FracDigits(5_000_000);
    NumeralOf1('0');
    NumeralOf1('5');
    PaddedValue("0", "5");
    NumeralOf2('0', '5');
    assert "0" + "5" == "05" && Pow10(6) == 1_000_000 by { SixZeros(); }
    SegmentsAreQuotientAndRemainder("0", "5", 5_000_000);
    FewestDecimals("0", "5", 5_000_000);
    FracDigitsValue(5_000_000);
    assert Padded(t)[0] == t[0] && Padded("5")[0] == '5';
    assert t == "5";
    PrintForm(5_000_000);
    assert Digits(0) == "0";
  }

  lemma SixZeros()
    ensures Pow10(6) == 1_000_000
  {
    assert Pow10(3) == 1000;
  }
}

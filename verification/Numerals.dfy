/** Numbers written with digits, and read back. */
module Numerals {
  import opened CppInt

  const HEX_DIGITS := "0123456789ABCDEF"

  function DigitOf(c: char): int {
    if '0' <= c <= '9' then c as int - '0' as int
    else if 'A' <= c <= 'F' then c as int - 'A' as int + 10
    else -1
  }

  function DigitChar(d: nat): char
    requires d < 16
  {
    HEX_DIGITS[d]
  }

  lemma DigitCharOf(d: nat)
    requires d < 16
    ensures DigitOf(DigitChar(d)) == d && (DigitChar(d) == '0' <==> d == 0)
  {
  }

  lemma DigitOfChar(c: char)
    requires 0 <= DigitOf(c)
    ensures DigitOf(c) < 16 && DigitChar(DigitOf(c)) == c
    ensures DigitOf(c) == 0 <==> c == '0'
  {
  }

  /** A natural number in base 10 or 16, most significant digit first. */
  function Numeral(n: nat, base: nat): (s: string)
    requires base == 10 || base == 16
    ensures |s| > 0
  {
    if n < base then [DigitChar(n)] else Numeral(n / base, base) + [DigitChar(n % base)]
  }

  function Value(s: string, base: nat): int {
    if s == [] then 0 else Value(s[..|s| - 1], base) * base + DigitOf(s[|s| - 1])
  }

  /** Digits only, and no leading zero but in "0" itself. */
  predicate IsNumeral(s: string, base: nat) {
    |s| > 0 && (forall i | 0 <= i < |s| :: 0 <= DigitOf(s[i]) < base) && (s[0] == '0' ==> |s| == 1)
  }

  lemma ValueAppend(s: string, c: char, base: nat)
    ensures Value(s + [c], base) == Value(s, base) * base + DigitOf(c)
  {
    assert (s + [c])[..|s|] == s;
  }

  lemma {:induction false} NumeralValue(n: nat, base: nat)
    requires base == 10 || base == 16
    ensures IsNumeral(Numeral(n, base), base) && Value(Numeral(n, base), base) == n
    ensures Numeral(n, base)[0] == '0' <==> n == 0
  {
    hide DigitOf, DigitChar;
    DigitCharOf(n % base);
    if n < base {
      ValueAppend("", DigitChar(n), base);
      assert "" + [DigitChar(n)] == [DigitChar(n)];
    } else {
      NumeralValue(n / base, base);
      ValueAppend(Numeral(n / base, base), DigitChar(n % base), base);
    }
  }

  /** Each number has one numeral. */
  lemma {:induction false} NumeralUnique(s: string, base: nat)
    requires base == 10 || base == 16
    requires IsNumeral(s, base)
    ensures Value(s, base) >= 0 && Numeral(Value(s, base), base) == s
    ensures Value(s, base) == 0 <==> s == "0"
  {
    hide DigitOf, DigitChar;
    var init, c := s[..|s| - 1], s[|s| - 1];
    assert s == init + [c];
    DigitOfChar(c);
    ValueAppend(init, c, base);
    if |s| > 1 {
      NumeralUnique(init, base);
      AppendDigit(Value(init, base), DigitOf(c), base);
    }
  }

  lemma AppendDigit(n: nat, d: nat, base: nat)
    requires base == 10 || base == 16
    requires n > 0 && d < base
    ensures Numeral(n * base + d, base) == Numeral(n, base) + [DigitChar(d)]
  {
    assert (n * base + d) / base == n && (n * base + d) % base == d;
  }

  function Power(base: nat, k: nat): nat {
    if k == 0 then 1 else base * Power(base, k - 1)
  }

  /** A numeral has at most `k` digits exactly when the number is below `base` to the `k`. */
  lemma {:induction false} NumeralLength(n: nat, base: nat, k: nat)
    requires base == 10 || base == 16
    requires k > 0
    ensures |Numeral(n, base)| <= k <==> n < Power(base, k)
  {
    if k == 1 {
      assert Power(base, 1) == base * Power(base, 0) == base;
    } else if n >= base {
      NumeralLength(n / base, base, k - 1);
    } else {
      PowerGrows(base, k - 1);
    }
  }

  lemma {:induction false} PowerGrows(base: nat, k: nat)
    requires base == 10 || base == 16
    ensures Power(base, k) > 0 && base * Power(base, k) >= base
  {
    if k > 0 { PowerGrows(base, k - 1); }
  }

  // ---------- Signed decimal numbers ----------

  function Decimal(v: int): string {
    if v < 0 then "-" + Numeral(-v, 10) else Numeral(v, 10)
  }

  function DecimalValue(s: string): int {
    if |s| > 0 && s[0] == '-' then -Value(s[1..], 10) else Value(s, 10)
  }

  /** A numeral, or a minus sign and a numeral other than zero's. */
  predicate IsDecimal(s: string) {
    if |s| > 0 && s[0] == '-' then IsNumeral(s[1..], 10) && s[1..] != "0" else IsNumeral(s, 10)
  }

  /** Printing loses nothing and prints no leading zero, negative numbers included. */
  lemma DecimalValueOf(v: int)
    ensures IsDecimal(Decimal(v)) && DecimalValue(Decimal(v)) == v
  {
    NumeralValue(Abs(v), 10);
    assert ("-" + Numeral(Abs(v), 10))[1..] == Numeral(Abs(v), 10);
    assert DigitOf(Numeral(Abs(v), 10)[0]) >= 0;
  }

  /** And every canonical decimal is the printed form of its value. */
  lemma DecimalUnique(s: string)
    requires IsDecimal(s)
    ensures Decimal(DecimalValue(s)) == s
  {
    if s[0] == '-' {
      NumeralUnique(s[1..], 10);
      assert s == "-" + s[1..];
    } else {
      NumeralUnique(s, 10);
    }
  }

  const INT64_MIN := -0x8000_0000_0000_0000
  const UINT64_MAX := 0xFFFF_FFFF_FFFF_FFFF

  /** Any signed or unsigned 64-bit number takes at most 20 characters. */
  lemma DecimalLength(v: int)
    requires INT64_MIN <= v <= UINT64_MAX
    ensures 0 < |Decimal(v)| <= 20
  {
    PowerOfTen();
    hide Power, Numeral;
    if v < 0 { NumeralLength(-v, 10, 19); } else { NumeralLength(v, 10, 20); }
  }

  /** Both extremes take all 20. */
  lemma DecimalLengthReached()
    ensures |Decimal(INT64_MIN)| == |Decimal(UINT64_MAX)| == 20
  {
    PowerOfTen();
    hide Power, Numeral;
    DecimalLength(INT64_MIN);
    DecimalLength(UINT64_MAX);
    NumeralLength(-INT64_MIN, 10, 18);
    NumeralLength(UINT64_MAX, 10, 19);
  }

  lemma PowerOfTen()
    ensures Power(10, 18) == 1_000_000_000_000_000_000
    ensures Power(10, 19) == 10_000_000_000_000_000_000
    ensures Power(10, 20) == 100_000_000_000_000_000_000
  {
    assert Power(10, 6) == 1_000_000;
    assert Power(10, 12) == 1_000_000_000_000;
  }

  /** A 64-bit address takes at most 16 hexadecimal digits. */
  lemma HexLength(n: nat)
    requires n <= UINT64_MAX
    ensures 0 < |Numeral(n, 16)| <= 16
  {
    assert Power(16, 8) == 0x1_0000_0000;
    assert Power(16, 16) == 0x1_0000_0000_0000_0000;
    NumeralLength(n, 16, 16);
  }
}

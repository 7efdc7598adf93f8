/**
 Numbers as text: what `printf("%u")`, `printf("%d")` and `std::hex` write
 (section 7.19.6.1 of C99) and what `strtoull(s, &end, 0)` reads back
 (section 7.20.1.4 of C99), with the 32- and 64-bit wrap-around spelled out.
 */
module Numerals {
  import opened Options
  import opened CStrings

  const TWO_TO_32: nat := 0x1_0000_0000
  const TWO_TO_64: nat := 0x1_0000_0000_0000_0000

  /** C's `unsigned`, the type of a severity. */
  type word32 = n: nat | n < TWO_TO_32

  const DIGITS := "0123456789abcdef"

  /** The characters `isspace` accepts in the C locale. */
  const SPACES := " \t\n\U{000B}\U{000C}\r"

  function DigitValue(c: char): nat {
    if '0' <= c <= '9' then c as int - '0' as int
    else if 'a' <= c <= 'f' then c as int - 'a' as int + 10
    else if 'A' <= c <= 'F' then c as int - 'A' as int + 10
    else 16
  }

  predicate IsDigit(c: char, base: nat) {
    DigitValue(c) < base
  }

  /** A natural number printed without leading zeros. */
  function Print(n: nat, base: nat): (s: string)
    requires base == 10 || base == 16
    ensures s != []
    ensures forall c | c in s :: c in DIGITS[..base]
    ensures n > 0 ==> s[0] != '0'
    decreases n
  {
    if n < base then [DIGITS[n]] else Print(n / base, base) + [DIGITS[n % base]]
  }

  function Decimal(n: nat): string {
    Print(n, 10)
  }

  /** `printf("%d")` of an `int`. */
  function SignedDecimal(i: int): string {
    if i < 0 then "-" + Decimal(-i) else Decimal(i)
  }

  /** The `int` that a 32-bit unsigned argument is taken for by `%d`. */
  function AsInt32(n: word32): int {
    if n < 0x8000_0000 then n else n - TWO_TO_32
  }

  /** The digits at the start of `s`, continuing a number whose digits so far gave `acc`. */
  function ReadDigits(s: string, base: nat, acc: nat): nat {
    if s == [] || !IsDigit(s[0], base) then acc
    else ReadDigits(s[1..], base, acc * base + DigitValue(s[0]))
  }

  /** The unsigned part of base-0 `strtoull`: a 0x prefix means 16, another leading 0 means 8. */
  function Magnitude(s: string): Option<nat> {
    if |s| > 2 && s[0] == '0' && s[1] in "xX" && IsDigit(s[2], 16) then Some(ReadDigits(s[2..], 16, 0))
    else if s != [] && s[0] == '0' then Some(ReadDigits(s, 8, 0))
    else if s != [] && IsDigit(s[0], 10) then Some(ReadDigits(s, 10, 0))
    else None
  }

  /** `strtoull(s, &end, 0)`; `None` when it leaves `end == s` (and returns 0). */
  function StrToUll(s: string): (r: Option<nat>)
    ensures r.Some? ==> r.value < TWO_TO_64
  {
    var t := s[StrSpn(s, SPACES)..];
    var negative := t != [] && t[0] == '-';
    var digits := if t != [] && t[0] in "+-" then t[1..] else t;
    match Magnitude(digits)
    case None => None
    case Some(m) =>
      Some(if m >= TWO_TO_64 then TWO_TO_64 - 1 else if negative then (TWO_TO_64 - m) % TWO_TO_64 else m)
  }

  /** Text after which a number certainly stops: nothing, or a character no numeral contains. */
  predicate EndsNumber(rest: string) {
    rest != [] ==> !IsDigit(rest[0], 16) && rest[0] !in "xX"
  }

  lemma DigitOf(d: nat)
    requires d < 16
    ensures DigitValue(DIGITS[d]) == d
  {
  }

  /** A printed digit is neither white space nor a sign. */
  lemma DigitIsPlain(c: char)
    requires c in DIGITS
    ensures c !in SPACES && c !in "+-"
  {
  }

  lemma ReadOne(d: nat, base: nat, rest: string, acc: nat)
    requires d < base <= 16
    ensures ReadDigits([DIGITS[d]] + rest, base, acc) == ReadDigits(rest, base, acc * base + d)
  {
    DigitOf(d);
    assert ([DIGITS[d]] + rest)[1..] == rest;
  }

  lemma {:induction false} ReadPrinted(n: nat, base: nat, rest: string)
    requires base == 10 || base == 16
    ensures ReadDigits(Print(n, base) + rest, base, 0) == ReadDigits(rest, base, n)
    decreases n
  {
    hide ReadDigits;
    if n < base {
      ReadOne(n, base, rest, 0);
    } else {
      var d := [DIGITS[n % base]];
      assert Print(n, base) + rest == Print(n / base, base) + (d + rest);
      ReadPrinted(n / base, base, d + rest);
      ReadOne(n % base, base, rest, n / base);
      Recompose(n, base);
    }
  }

  lemma Recompose(n: nat, base: nat)
    requires base == 10 || base == 16
    ensures n / base * base + n % base == n
  {
    if base == 10 {
      assert n / 10 * 10 + n % 10 == n;
    } else {
      assert n / 16 * 16 + n % 16 == n;
    }
  }

  lemma FirstDigit(n: nat, base: nat)
    requires base == 10 || base == 16
    ensures Print(n, base)[0] in DIGITS && IsDigit(Print(n, base)[0], base)
  {
    var c := Print(n, base)[0];
    assert c in DIGITS[..base];
    var d :| 0 <= d < base && DIGITS[d] == c;
    DigitOf(d);
  }

  /** Printed decimals are never taken for octal or hexadecimal ones. */
  lemma MagnitudeOfDecimal(n: nat, rest: string)
    requires EndsNumber(rest)
    ensures Magnitude(Decimal(n) + rest) == Some(n)
  {
    var s := Decimal(n) + rest;
    FirstDigit(n, 10);
    assert s[0] == Decimal(n)[0];
    if n == 0 {
      assert s == "0" + rest && s[1..] == rest;
      ReadOne(0, 8, rest, 0);
    } else {
      ReadPrinted(n, 10, rest);
    }
  }

  lemma MagnitudeOfHex(n: nat)
    ensures Magnitude("0x" + Print(n, 16)) == Some(n)
  {
    var s := "0x" + Print(n, 16);
    FirstDigit(n, 16);
    assert s[2..] == Print(n, 16) == Print(n, 16) + [];
    ReadPrinted(n, 16, []);
  }

  /** Text starting with a digit: `strtoull` has no white space and no sign to skip. */
  lemma StrToUllUnsigned(s: string)
    requires s != [] && s[0] in DIGITS
    ensures Magnitude(s).Some? && Magnitude(s).value < TWO_TO_64 ==> StrToUll(s) == Magnitude(s)
  {
    DigitIsPlain(s[0]);
    assert s[0..] == s;
  }

  lemma StrToUllNegative(s: string)
    requires Magnitude(s).Some? && 0 < Magnitude(s).value < TWO_TO_64
    ensures StrToUll("-" + s) == Some(TWO_TO_64 - Magnitude(s).value)
  {
    var t := "-" + s;
    assert t[0] == '-' && t[0..] == t && t[1..] == s;
    assert StrSpn(t, SPACES) == 0;
  }

  predicate AllDigits(s: string, base: nat) {
    forall c | c in s :: IsDigit(c, base)
  }

  /** The number that digits stand for, the last one counting once. */
  function Value(s: string, base: nat): nat {
    if s == [] then 0 else Value(s[..|s| - 1], base) * base + DigitValue(s[|s| - 1])
  }

  lemma {:induction false} ReadSnoc(s: string, c: char, base: nat, acc: nat)
    requires AllDigits(s, base) && IsDigit(c, base)
    ensures ReadDigits(s + [c], base, acc) == ReadDigits(s, base, acc) * base + DigitValue(c)
    decreases |s|
  {
    hide DigitValue;
    if s == [] {
      assert ([] + [c])[1..] == [];
    } else {
      assert s[0] in s;
      assert (s + [c])[1..] == s[1..] + [c];
      ReadSnoc(s[1..], c, base, acc * base + DigitValue(s[0]));
    }
  }

  lemma {:induction false} ReadDigitsValue(s: string, base: nat)
    requires AllDigits(s, base)
    ensures ReadDigits(s, base, 0) == Value(s, base)
    decreases |s|
  {
    hide DigitValue;
    if s != [] {
      var n := |s| - 1;
      ReadDigitsValue(s[..n], base);
      ReadSnoc(s[..n], s[n], base, 0);
      assert s[..n] + [s[n]] == s;
    }
  }

  /** Base 0: decimal digits count as such unless the first is 0; behind `0` they are octal, behind `0x` hexadecimal. */
  lemma BaseZero(digits: string)
    requires digits != []
    ensures AllDigits(digits, 10) && digits[0] != '0' ==> Magnitude(digits) == Some(Value(digits, 10))
    ensures AllDigits(digits, 8) ==> Magnitude("0" + digits) == Some(Value(digits, 8))
    ensures AllDigits(digits, 16) ==> Magnitude("0x" + digits) == Some(Value(digits, 16))
  {
    hide Value, ReadDigits, DigitValue;
    assert digits[0] in digits;
    if AllDigits(digits, 10) {
      ReadDigitsValue(digits, 10);
    }
    if AllDigits(digits, 8) {
      ReadDigitsValue(digits, 8);
      OctalPrefix(digits);
    }
    if AllDigits(digits, 16) {
      ReadDigitsValue(digits, 16);
      assert ("0x" + digits)[2..] == digits && ("0x" + digits)[2] == digits[0];
    }
  }

  lemma OctalPrefix(digits: string)
    requires digits != [] && IsDigit(digits[0], 8)
    ensures Magnitude("0" + digits) == Some(ReadDigits(digits, 8, 0))
  {
    var s := "0" + digits;
    assert s[0] == '0' && s[1..] == digits && s[1] == digits[0];
    assert s[1] !in "xX";
    assert ReadDigits(s, 8, 0) == ReadDigits(s[1..], 8, 0 * 8 + 0);
  }

  /** White space and one sign may come first; a minus counts modulo 2^64; too large a number is cut to the greatest. */
  lemma StrToUllExactly(spaces: string, sign: string, digits: string)
    requires forall c | c in spaces :: c in SPACES
    requires sign in {"", "+", "-"} && digits != [] && digits[0] !in SPACES && digits[0] !in "+-"
    ensures var m := Magnitude(digits);
            StrToUll(spaces + sign + digits)
            == if m.None? then None
               else if m.value >= TWO_TO_64 then Some(TWO_TO_64 - 1)
               else if sign == "-" then Some((TWO_TO_64 - m.value) % TWO_TO_64)
               else m
  {
    hide Magnitude, StrSpn, StrToUll;
    ConcatSign(sign, digits);
    SpacesSkipped(spaces, sign + digits);
    StrToUllOf(spaces + (sign + digits), sign + digits, digits);
    ConcatThree(spaces, sign, digits);
  }

  lemma ConcatThree(a: string, b: string, c: string)
    ensures a + b + c == a + (b + c)
  {
  }

  lemma StrToUllOf(s: string, t: string, digits: string)
    requires t == s[StrSpn(s, SPACES)..] && digits == if t != [] && t[0] in "+-" then t[1..] else t
    ensures var m := Magnitude(digits);
            StrToUll(s) == if m.None? then None
                           else if m.value >= TWO_TO_64 then Some(TWO_TO_64 - 1)
                           else if t != [] && t[0] == '-' then Some((TWO_TO_64 - m.value) % TWO_TO_64)
                           else m
  {
    hide Magnitude, StrSpn;
  }

  lemma SpacesSkipped(spaces: string, t: string)
    requires (forall c | c in spaces :: c in SPACES) && t != [] && t[0] !in SPACES
    ensures var s := spaces + t; s[StrSpn(s, SPACES)..] == t
  {
    hide StrSpn;
    var s := spaces + t;
    assert s[|spaces|] == t[0] && forall i | 0 <= i < |spaces| :: s[i] == spaces[i];
    assert StrSpn(s, SPACES) == |spaces|;
  }

  lemma ConcatSign(sign: string, digits: string)
    requires sign in {"", "+", "-"} && digits != [] && digits[0] !in SPACES && digits[0] !in "+-"
    ensures var t := sign + digits;
            && t != [] && t[0] !in SPACES && (t[0] == '-' <==> sign == "-")
            && (if t[0] in "+-" then t[1..] else t) == digits
  {
    assert "+"[0] == '+' && "-"[0] == '-';
    var t := sign + digits;
    if sign == "" {
      assert t == digits;
    } else {
      assert t[1..] == digits;
    }
  }

  /** `strtoull` undoes `%d`, up to the wrap-around of a negative number modulo 2^64. */
  lemma SignedDecimalReadBack(i: int, rest: string)
    requires -0x8000_0000 <= i < 0x8000_0000 && EndsNumber(rest)
    ensures StrToUll(SignedDecimal(i) + rest) == Some(if i < 0 then TWO_TO_64 + i else i)
  {
    hide StrToUll, Magnitude, Decimal, EndsNumber;
    if i < 0 {
      MagnitudeOfDecimal(-i, rest);
      StrToUllNegative(Decimal(-i) + rest);
      assert SignedDecimal(i) + rest == "-" + (Decimal(-i) + rest);
    } else {
      DecimalReadBack(i, rest);
    }
  }

  lemma DecimalReadBack(n: nat, rest: string)
    requires n < TWO_TO_64 && EndsNumber(rest)
    ensures StrToUll(Decimal(n) + rest) == Some(n)
  {
    hide StrToUll, Magnitude, EndsNumber;
    FirstDigit(n, 10);
    assert (Decimal(n) + rest)[0] == Decimal(n)[0];
    MagnitudeOfDecimal(n, rest);
    StrToUllUnsigned(Decimal(n) + rest);
  }

  /**
   A severity printed with `%d`, read with base-0 `strtoull` and stored in an `unsigned`
   is the severity again, over the whole 32-bit range: from 2^31 on it is printed as a
   negative number, read as that number plus 2^64, and cut down again.
   */
  lemma SeverityReadBack(severity: word32, rest: string)
    requires EndsNumber(rest)
    ensures var r := StrToUll(SignedDecimal(AsInt32(severity)) + rest);
            r.Some? && r.value % TWO_TO_32 == severity
  {
    hide StrToUll, SignedDecimal;
    SignedDecimalReadBack(AsInt32(severity), rest);
    if severity >= 0x8000_0000 {
      assert TWO_TO_64 + (severity - TWO_TO_32) == 0xFFFF_FFFF * TWO_TO_32 + severity;
    }
  }

  /** No two numbers are printed alike. */
  lemma DecimalInjective(a: nat, b: nat)
    requires Decimal(a) == Decimal(b)
    ensures a == b
  {
    MagnitudeOfDecimal(a, []);
    MagnitudeOfDecimal(b, []);
  }
}

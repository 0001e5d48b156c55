/** Numbers as text: std::to_string, and strtoull with base 0. */
module Decimal {
  import opened Endian

  function Digit(d: nat): char
    requires d < 10
  {
    ('0' as int + d) as char
  }

  /** std::to_string of an unsigned number. */
  function ToDecimal(n: nat): (s: Bytes)
    ensures |s| > 0 && forall i :: 0 <= i < |s| ==> '0' <= s[i] <= '9'
    ensures s[0] == '0' ==> n == 0 && |s| == 1
  {
    if n < 10 then [Digit(n)] else ToDecimal(n / 10) + [Digit(n % 10)]
  }

  /** Value of a digit in bases up to 16; 16 for anything else. */
  function DigitValue(c: char): nat {
    if '0' <= c <= '9' then c as int - '0' as int
    else if 'a' <= c <= 'f' then c as int - 'a' as int + 10
    else if 'A' <= c <= 'F' then c as int - 'A' as int + 10
    else 16
  }

  /** Digits up to the first character that is none. */
  function ReadDigits(base: nat, s: Bytes, acc: nat): nat
    decreases |s|
  {
    if s == [] || DigitValue(s[0]) >= base then acc
    else ReadDigits(base, s[1..], acc * base + DigitValue(s[0]))
  }

  predicate IsSpace(c: char) {
    c == ' ' || '\t' <= c <= '\r'
  }

  function SkipSpace(s: Bytes): Bytes {
    if s != [] && IsSpace(s[0]) then SkipSpace(s[1..]) else s
  }

  /** The magnitude strtoull reads in base 0: hexadecimal, octal or decimal by its prefix. */
  function Magnitude(s: Bytes): nat {
    if |s| >= 3 && s[0] == '0' && (s[1] == 'x' || s[1] == 'X') && DigitValue(s[2]) < 16
    then ReadDigits(16, s[2..], 0)
    else if s != [] && s[0] == '0' then ReadDigits(8, s, 0)
    else ReadDigits(10, s, 0)
  }

  /** strtoull(s, nullptr, 0): saturates on overflow, negates modulo 2^64 after a minus sign. */
  function StrToULL(s: Bytes): (n: nat)
    ensures n < TWO64
  {
    var t := SkipSpace(s);
    var negative := t != [] && t[0] == '-';
    var v := Magnitude(if t != [] && (t[0] == '-' || t[0] == '+') then t[1..] else t);
    if v >= TWO64 then TWO64 - 1
    else if negative && v > 0 then TWO64 - v
    else v
  }

  lemma {:induction false} ReadDigitsSnoc(s: Bytes, d: char, acc: nat)
    requires forall i :: 0 <= i < |s| ==> '0' <= s[i] <= '9'
    requires '0' <= d <= '9'
    ensures ReadDigits(10, s + [d], acc) == ReadDigits(10, s, acc) * 10 + DigitValue(d)
    decreases |s|
  {
    if s == [] {
      assert (s + [d])[1..] == [];
    } else {
      assert (s + [d])[1..] == s[1..] + [d];
      ReadDigitsSnoc(s[1..], d, acc * 10 + DigitValue(s[0]));
    }
  }

  lemma {:induction false} ReadDecimal(n: nat)
    ensures ReadDigits(10, ToDecimal(n), 0) == n
  {
    if n >= 10 {
      ReadDecimal(n / 10);
      ReadDigitsSnoc(ToDecimal(n / 10), Digit(n % 10), 0);
    }
  }

  function Pow10(k: nat): (p: nat)
    ensures p > 0
  {
    if k == 0 then 1 else 10 * Pow10(k - 1)
  }

  lemma DivideTenTwice(n: nat, p: nat)
    requires p > 0
    ensures n / 10 / p == n / (10 * p)
  {
    var q, r, s := n / 10 / p, n / 10 % p, n % 10;
    assert n == 10 * (q * p + r) + s;
    assert 10 * (q * p + r) == q * (10 * p) + 10 * r;
    QuotientUnique(n, 10 * p, q, 10 * r + s);
  }

  /** Which digit stands where, counted from the last. */
  lemma {:induction false} DecimalDigit(n: nat, i: nat)
    requires i < |ToDecimal(n)|
    ensures ToDecimal(n)[|ToDecimal(n)| - 1 - i] as int == 48 + n / Pow10(i) % 10
  {
    if i > 0 {
      DecimalDigit(n / 10, i - 1);
      DivideTenTwice(n, Pow10(i - 1));
    }
  }

  /** The id a channel writes into a name is the id it reads back, for every 64-bit id; larger numbers saturate. */
  lemma DecimalRoundTrip(n: nat)
    ensures StrToULL(ToDecimal(n)) == if n < TWO64 then n else TWO64 - 1
  {
    ReadDecimal(n);
    if n == 0 {
      var zero := ToDecimal(0);
      assert zero == ['0'] && zero[1..] == [];
      assert ReadDigits(8, zero, 0) == ReadDigits(8, [], 0);
    }
  }

  lemma ReadTwo(base: nat, a: char, b: char)
    requires DigitValue(a) < base && DigitValue(b) < base
    ensures ReadDigits(base, [a, b], 0) == DigitValue(a) * base + DigitValue(b)
  {
    assert [a, b][1..] == [b] && [b][1..] == [];
    assert ReadDigits(base, [b], DigitValue(a)) == ReadDigits(base, [], DigitValue(a) * base + DigitValue(b));
  }

  /** Base 0 reads other texts in other bases; the ids printed never look like these. */
  lemma OtherBases()
    ensures StrToULL("010") == 8 && StrToULL("0x1F") == 31 && StrToULL("-12") == TWO64 - 12 && StrToULL(" +12") == 12
  {
    assert "010"[1..] == ['1', '0'];
    ReadTwo(8, '1', '0');
    assert Magnitude("010") == ReadDigits(8, ['1', '0'], 0) == 8;
    assert "0x1F"[2..] == ['1', 'F'];
    ReadTwo(16, '1', 'F');
    assert Magnitude("0x1F") == 31;
    assert "-12"[1..] == ['1', '2'] && "+12"[1..] == ['1', '2'];
    ReadTwo(10, '1', '2');
    assert Magnitude(['1', '2']) == 12;
    assert " +12"[1..] == "+12";
    assert SkipSpace(" +12") == SkipSpace("+12") == "+12";
  }

  lemma DecimalInjective(m: nat, n: nat)
    ensures ToDecimal(m) == ToDecimal(n) <==> m == n
  {
    ReadDecimal(m);
    ReadDecimal(n);
  }
}

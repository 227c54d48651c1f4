/** Decimal digits, number-to-text conversion and the plain string order
    used wherever the application compares or prints text. */
module Text {

  predicate IsDigit(c: char) {
    '0' <= c <= '9'
  }

  predicate AllDigits(s: string) {
    forall i :: 0 <= i < |s| ==> IsDigit(s[i])
  }

  function DigitChar(k: nat): (c: char)
    requires k < 10
    ensures IsDigit(c)
  {
    ('0' as int + k) as char
  }

  function DigitValue(c: char): (k: nat)
    requires IsDigit(c)
    ensures k < 10
  {
    (c as int - '0' as int) as nat
  }

  lemma DigitRoundTrip(k: nat)
    requires k < 10
    ensures DigitValue(DigitChar(k)) == k
  {
  }

  lemma DigitCharOfValue(c: char)
    requires IsDigit(c)
    ensures DigitChar(DigitValue(c)) == c
  {
  }

  /** JavaScript's `String(n)` for a non-negative integer: decimal, no leading zeros. */
  function NatToString(n: nat): (s: string)
    ensures |s| >= 1 && AllDigits(s)
    ensures n >= 10 ==> s[0] != '0'
    decreases n
  {
    if n < 10 then [DigitChar(n)] else NatToString(n / 10) + [DigitChar(n % 10)]
  }

  /** The value of a string of decimal digits. */
  function ParseNat(s: string): nat
    requires AllDigits(s)
  {
    if s == [] then 0 else 10 * ParseNat(s[..|s| - 1]) + DigitValue(s[|s| - 1])
  }

  lemma {:induction false} ParseNatToString(n: nat)
    ensures ParseNat(NatToString(n)) == n
    decreases n
  {
    var s := NatToString(n);
    if n < 10 {
      assert s[..0] == [];
    } else {
      ParseNatToString(n / 10);
      assert s[..|s| - 1] == NatToString(n / 10);
    }
  }

  /** Exactly two digits, zero-padded: the `hh`, `mm`, `MM` and `dd` fields. */
  function Two(n: nat): (s: string)
    requires n < 100
    ensures |s| == 2 && AllDigits(s)
  {
    [DigitChar(n / 10), DigitChar(n % 10)]
  }

  /** Exactly four digits, zero-padded: the `yyyy` field for years below 10000. */
  function Four(n: nat): (s: string)
    requires n < 10000
    ensures |s| == 4 && AllDigits(s)
  {
    Two(n / 100) + Two(n % 100)
  }

  function ValueOfTwo(s: string): nat
    requires |s| == 2 && AllDigits(s)
  {
    10 * DigitValue(s[0]) + DigitValue(s[1])
  }

  function ValueOfFour(s: string): nat
    requires |s| == 4 && AllDigits(s)
  {
    100 * ValueOfTwo(s[..2]) + ValueOfTwo(s[2..])
  }

  lemma TwoRoundTrip(n: nat)
    requires n < 100
    ensures ValueOfTwo(Two(n)) == n
  {
    DigitRoundTrip(n / 10);
    DigitRoundTrip(n % 10);
  }

  lemma TwoOfValue(s: string)
    requires |s| == 2 && AllDigits(s)
    ensures ValueOfTwo(s) < 100 && Two(ValueOfTwo(s)) == s
  {
    var hi, lo := DigitValue(s[0]), DigitValue(s[1]);
    DivModTen(hi, lo);
    DigitCharOfValue(s[0]);
    DigitCharOfValue(s[1]);
    assert Two(ValueOfTwo(s)) == [DigitChar(hi), DigitChar(lo)];
  }

  lemma DivModTen(hi: nat, lo: nat)
    requires hi < 10 && lo < 10
    ensures (10 * hi + lo) / 10 == hi && (10 * hi + lo) % 10 == lo
  {
  }

  lemma FourRoundTrip(n: nat)
    requires n < 10000
    ensures ValueOfFour(Four(n)) == n
  {
    var s := Four(n);
    assert s[..2] == Two(n / 100) && s[2..] == Two(n % 100);
    TwoRoundTrip(n / 100);
    TwoRoundTrip(n % 100);
  }

  lemma FourOfValue(s: string)
    requires |s| == 4 && AllDigits(s)
    ensures ValueOfFour(s) < 10000 && Four(ValueOfFour(s)) == s
  {
    var a, b := s[..2], s[2..];
    assert s == a + b;
    TwoOfValue(a);
    TwoOfValue(b);
    var hi, lo := ValueOfTwo(a), ValueOfTwo(b);
    var v := ValueOfFour(s);
    assert v == 100 * hi + lo;
    DivModHundred(hi, lo);
    assert Four(v) == Two(hi) + Two(lo);
  }

  lemma DivModHundred(hi: nat, lo: nat)
    requires hi < 100 && lo < 100
    ensures (100 * hi + lo) / 100 == hi && (100 * hi + lo) % 100 == lo
  {
  }

  /** Plain lexicographic order on strings (by character code), standing in
      for `localeCompare`: `a` sorts at or before `b`. */
  predicate StrLe(a: string, b: string)
  {
    if a == [] then true
    else if b == [] then false
    else if a[0] != b[0] then a[0] < b[0]
    else StrLe(a[1..], b[1..])
  }

  lemma {:induction false} StrLeReflexive(a: string)
    ensures StrLe(a, a)
  {
    if a != [] {
      StrLeReflexive(a[1..]);
    }
  }

  lemma {:induction false} StrLeTotal(a: string, b: string)
    ensures StrLe(a, b) || StrLe(b, a)
  {
    if a != [] && b != [] && a[0] == b[0] {
      StrLeTotal(a[1..], b[1..]);
    }
  }

  lemma {:induction false} StrLeAntisymmetric(a: string, b: string)
    requires StrLe(a, b) && StrLe(b, a)
    ensures a == b
  {
    if a != [] && b != [] {
      StrLeAntisymmetric(a[1..], b[1..]);
      assert a == [a[0]] + a[1..];
      assert b == [b[0]] + b[1..];
    }
  }

  lemma {:induction false} StrLeTransitive(a: string, b: string, c: string)
    requires StrLe(a, b) && StrLe(b, c)
    ensures StrLe(a, c)
  {
    if a != [] && b != [] && c != [] && a[0] == b[0] && b[0] == c[0] {
      StrLeTransitive(a[1..], b[1..], c[1..]);
    }
  }
}

/** Octets, options, numerals and case folding shared by the text formats. */
module Numerals {

  type Byte = b: int | 0 <= b < 256

  datatype Option<+T> = None | Some(value: T)

  function Lower(c: char): char {
    if 'A' <= c <= 'Z' then (c as int + 32) as char else c
  }

  /** strcasecmp(a, b) == 0, in the C locale. */
  predicate EqualFold(a: string, b: string) {
    |a| == |b| && forall i | 0 <= i < |a| :: Lower(a[i]) == Lower(b[i])
  }

  /** Folding ignores the case of the letters A to Z, and of nothing else. */
  lemma FoldExactly(a: string, b: string)
    ensures EqualFold(a, b) <==> |a| == |b| && forall i | 0 <= i < |a| ::
      a[i] == b[i] || ('A' <= a[i] <= 'Z' && b[i] as int == a[i] as int + 32) || ('A' <= b[i] <= 'Z' && a[i] as int == b[i] as int + 32)
  {
    forall i | 0 <= i < |a| && |a| == |b|
      ensures Lower(a[i]) == Lower(b[i]) <==>
        a[i] == b[i] || ('A' <= a[i] <= 'Z' && b[i] as int == a[i] as int + 32) || ('A' <= b[i] <= 'Z' && a[i] as int == b[i] as int + 32)
    {
      LowerExactly(a[i], b[i]);
    }
  }

  lemma LowerExactly(a: char, b: char)
    ensures Lower(a) == Lower(b) <==>
      a == b || ('A' <= a <= 'Z' && b as int == a as int + 32) || ('A' <= b <= 'Z' && a as int == b as int + 32)
  {
    assert Lower(a) as int == if 'A' <= a <= 'Z' then a as int + 32 else a as int;
    assert Lower(b) as int == if 'A' <= b <= 'Z' then b as int + 32 else b as int;
  }

  /** The digit characters of printf's %x and %i. */
  const DIGITS := "0123456789abcdef"

  datatype Base = Decimal | Hexadecimal

  function Radix(b: Base): (r: nat) {
    if b == Decimal then 10 else 16
  }

  function Quotient(n: nat, b: Base): nat {
    if b == Decimal then n / 10 else n / 16
  }

  function Last(n: nat, b: Base): (d: nat)
    ensures d < Radix(b)
  {
    if b == Decimal then n % 10 else n % 16
  }

  function Times(n: nat, b: Base): nat {
    if b == Decimal then n * 10 else n * 16
  }

  /** n without leading zeros: what printf's %u and %x write. */
  function Digits(n: nat, b: Base): (r: string)
    ensures |r| >= 1
  {
    if n < Radix(b) then [DIGITS[n]] else Digits(Quotient(n, b), b) + [DIGITS[Last(n, b)]]
  }

  /** The value of one digit character; -1 for any other character. Capital hex digits are accepted. */
  function DigitValue(c: char): (v: int)
    ensures -1 <= v < 16
  {
    if '0' <= c <= '9' then c as int - '0' as int
    else if 'a' <= c <= 'f' then c as int - 'a' as int + 10
    else if 'A' <= c <= 'F' then c as int - 'A' as int + 10
    else -1
  }

  predicate IsDigit(c: char, b: Base) {
    0 <= DigitValue(c) < Radix(b)
  }

  predicate AllDigits(s: string, b: Base) {
    forall i | 0 <= i < |s| :: IsDigit(s[i], b)
  }

  /** The number a string of digits denotes. */
  function Value(s: string, b: Base): (v: nat)
    requires AllDigits(s, b)
  {
    if s == [] then 0
    else
      assert IsDigit(s[|s| - 1], b);
      Times(Value(s[..|s| - 1], b), b) + DigitValue(s[|s| - 1])
  }

  lemma DigitChars(d: nat, b: Base)
    requires d < Radix(b)
    ensures DigitValue(DIGITS[d]) == d && IsDigit(DIGITS[d], b)
  {
  }

  lemma Recompose(n: nat, b: Base)
    ensures Times(Quotient(n, b), b) + Last(n, b) == n && Times(0, b) == 0
    ensures n < Radix(b) ==> Last(n, b) == n
    ensures n >= Radix(b) ==> Quotient(n, b) < n
  {
  }

  /** Reading back what was printed. */
  lemma {:induction false} DigitsRoundTrip(n: nat, b: Base)
    ensures AllDigits(Digits(n, b), b)
    ensures Value(Digits(n, b), b) == n
  {
    hide Quotient, Last, Times, Radix, DigitValue;
    DigitChars(Last(n, b), b);
    Recompose(n, b);
    if n < Radix(b) {
      assert Digits(n, b)[..0] == [];
    } else {
      DigitsRoundTrip(Quotient(n, b), b);
      var s := Digits(n, b);
      assert s[..|s| - 1] == Digits(Quotient(n, b), b);
    }
  }

  /** No zeros in front, and small letters. */
  lemma {:induction false} DigitsForm(n: nat, b: Base)
    ensures |Digits(n, b)| > 1 ==> Digits(n, b)[0] != '0'
    ensures n > 0 ==> Digits(n, b)[0] != '0'
    ensures forall c | c in Digits(n, b) :: '0' <= c <= '9' || (b == Hexadecimal && 'a' <= c <= 'f')
  {
    hide Quotient, Last, Radix;
    Recompose(n, b);
    DigitLetters(Last(n, b), b);
    if n >= Radix(b) {
      DigitsForm(Quotient(n, b), b);
      assert Quotient(n, b) > 0 by { QuotientPositive(n, b); }
    }
  }

  lemma DigitLetters(d: nat, b: Base)
    requires d < Radix(b)
    ensures '0' <= DIGITS[d] <= '9' || (b == Hexadecimal && 'a' <= DIGITS[d] <= 'f')
    ensures d > 0 ==> DIGITS[d] != '0'
  {
  }

  lemma QuotientPositive(n: nat, b: Base)
    requires n >= Radix(b)
    ensures Quotient(n, b) > 0
  {
  }

  function Power(b: Base, k: nat): (p: nat)
    ensures p >= 1
  {
    if k == 0 then 1 else Times(Power(b, k - 1), b)
  }

  /** A number below radix^k takes at most k digits. */
  lemma {:induction false} DigitsLength(n: nat, b: Base, k: nat)
    requires k >= 1 && n < Power(b, k)
    ensures |Digits(n, b)| <= k
  {
    if n >= Radix(b) {
      assert k > 1 by { assert Power(b, 1) == Times(Power(b, 0), b); }
      DigitsLength(Quotient(n, b), b, k - 1);
    }
  }
}

/**
 * Digit strings of natural numbers, as JavaScript's `String(n)` and
 * `padStart`, Python's `format(n, '04X')` and `int(digits)` produce and
 * read them.
 */
module Numerals {

  const Digits := "0123456789ABCDEF"

  predicate IsDigitOf(c: char, base: nat)
    requires 2 <= base <= 16
  {
    exists d | 0 <= d < base :: Digits[d] == c
  }

  predicate AllDigits(s: string, base: nat)
    requires 2 <= base <= 16
  {
    forall i :: 0 <= i < |s| ==> IsDigitOf(s[i], base)
  }

  /** The value of one digit character ('0'-'9', then upper-case 'A'-'F'). */
  function DigitValue(c: char): (v: nat)
    ensures v < 16
    ensures ('0' <= c <= '9' || 'A' <= c <= 'F') ==> Digits[v] == c
  {
    if '0' <= c <= '9' then c as nat - '0' as nat
    else if 'A' <= c <= 'F' then c as nat - 'A' as nat + 10
    else 0
  }

  lemma DigitRoundTrip(d: nat)
    requires d < 16
    ensures DigitValue(Digits[d]) == d
  {
  }

  /** The digits of `n` in `base`, most significant first, with no leading zero. */
  function ToDigits(n: nat, base: nat): (s: string)
    requires 2 <= base <= 16
    ensures |s| >= 1 && AllDigits(s, base)
    ensures |s| > 1 ==> s[0] != '0'
    decreases n
  {
    if n < base then
      assert IsDigitOf(Digits[n], base);
      [Digits[n]]
    else
      DivMod(n, base);
      assert IsDigitOf(Digits[n % base], base);
      ToDigits(n / base, base) + [Digits[n % base]]
  }

  lemma DivMod(n: nat, base: nat)
    requires 2 <= base <= 16 && n >= base
    ensures n == (n / base) * base + n % base
    ensures 0 <= n % base < base && 0 < n / base < n
  {
  }

  /** The number a digit string denotes, as Python's `int(s, base)` reads it. */
  function Value(s: string, base: nat): nat
    requires 2 <= base <= 16
    decreases |s|
  {
    if |s| == 0 then 0
    else Value(s[..|s| - 1], base) * base + DigitValue(s[|s| - 1])
  }

  lemma {:induction false} ValueOfToDigits(n: nat, base: nat)
    requires 2 <= base <= 16
    ensures Value(ToDigits(n, base), base) == n
    decreases n
  {
    var s := ToDigits(n, base);
    if n < base {
      DigitRoundTrip(n);
      assert s[..0] == [];
    } else {
      DivMod(n, base);
      ValueOfToDigits(n / base, base);
      assert s[..|s| - 1] == ToDigits(n / base, base);
      DigitRoundTrip(n % base);
    }
  }

  function Repeat(c: char, k: nat): (r: string)
    ensures |r| == k && forall i :: 0 <= i < k ==> r[i] == c
  {
    if k == 0 then "" else Repeat(c, k - 1) + [c]
  }

  /** JavaScript's `padStart(width, fill)`. */
  function PadStart(s: string, width: nat, fill: char): (r: string)
    ensures |r| == if |s| >= width then |s| else width
    ensures r[|r| - |s|..] == s
    ensures forall i :: 0 <= i < |r| - |s| ==> r[i] == fill
  {
    if |s| >= width then s else Repeat(fill, width - |s|) + s
  }

  lemma {:induction false} LeadingZeros(s: string, k: nat, base: nat)
    requires 2 <= base <= 16
    ensures Value(Repeat('0', k) + s, base) == Value(s, base)
    decreases |s|
  {
    var z := Repeat('0', k);
    if |s| == 0 {
      ZerosValue(k, base);
      assert z + s == z;
    } else {
      LeadingZeros(s[..|s| - 1], k, base);
      assert (z + s)[..|z + s| - 1] == z + s[..|s| - 1];
    }
  }

  lemma ValueSnoc(s: string, c: char, base: nat)
    requires 2 <= base <= 16
    ensures Value(s + [c], base) == Value(s, base) * base + DigitValue(c)
  {
    assert (s + [c])[..|s|] == s;
  }

  lemma {:induction false} ZerosValue(k: nat, base: nat)
    requires 2 <= base <= 16
    ensures Value(Repeat('0', k), base) == 0
    decreases k
  {
    if k > 0 {
      var z := Repeat('0', k - 1);
      ZerosValue(k - 1, base);
      ValueSnoc(z, '0', base);
      assert Value(z, base) * base == 0;
    }
  }

  /** Left-padding with zeros keeps the value and the digit alphabet. */
  lemma PaddedValue(n: nat, base: nat, width: nat)
    requires 2 <= base <= 16
    ensures Value(PadStart(ToDigits(n, base), width, '0'), base) == n
    ensures AllDigits(PadStart(ToDigits(n, base), width, '0'), base)
  {
    var s := ToDigits(n, base);
    var r := PadStart(s, width, '0');
    ValueOfToDigits(n, base);
    if |s| < width {
      LeadingZeros(s, width - |s|, base);
      assert Digits[0] == '0';
      forall i | 0 <= i < |r| ensures IsDigitOf(r[i], base) {
        if i >= |r| - |s| {
          assert r[i] == s[i - (|r| - |s|)];
        } else {
          assert r[i] == Digits[0];
        }
      }
    }
  }
}

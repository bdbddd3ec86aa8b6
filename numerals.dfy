/** Positional numeral systems over an ordered alphabet of digit characters.
    Django's `baseconv.BaseConverter.convert` reads a string as a numeral in
    one alphabet (left fold `x * base + digit`) and writes the value in another
    (repeated division, most significant digit first, `to_digits[0]` for zero).
    Python's `str(n)` on a non-negative int is the same writer over the decimal
    digits. */
module Numerals {

  /** An alphabet usable as digits: at least two characters, all distinct. */
  predicate IsAlphabet(digits: string) {
    |digits| >= 2 && forall i, j :: 0 <= i < j < |digits| ==> digits[i] != digits[j]
  }

  /** True when every character of `s` is one of the digits. */
  predicate AllDigits(s: string, digits: string) {
    forall i :: 0 <= i < |s| ==> s[i] in digits
  }

  /** Position of `c` in `digits` (Python's `digits.index(c)`). */
  function IndexOf(digits: string, c: char): (k: nat)
    requires c in digits
    ensures k < |digits| && digits[k] == c
    ensures forall j :: 0 <= j < k ==> digits[j] != c
  {
    if digits[0] == c then 0 else 1 + IndexOf(digits[1..], c)
  }

  lemma IndexOfDigit(digits: string, k: nat)
    requires IsAlphabet(digits) && k < |digits|
    ensures IndexOf(digits, digits[k]) == k
  {
  }

  /** Appending a digit multiplies by the base and adds the digit's value. */
  lemma FromDigitsSnoc(p: string, c: char, digits: string)
    requires IsAlphabet(digits) && AllDigits(p, digits) && c in digits
    ensures AllDigits(p + [c], digits)
    ensures FromDigits(p + [c], digits) == FromDigits(p, digits) * |digits| + IndexOf(digits, c)
  {
    var s := p + [c];
    assert s[..|s| - 1] == p;
  }

  lemma Euclid(n: nat, b: nat)
    requires b > 0
    ensures b * (n / b) + n % b == n && n % b < b
  {
  }

  lemma {:induction false} MulAtLeastDouble(b: nat, q: nat)
    requires b >= 2
    ensures b * q >= 2 * q
  {
    if q > 0 {
      MulAtLeastDouble(b, q - 1);
      assert b * q == b * (q - 1) + b;
    }
  }

  /** Division by the base shrinks a positive number: ToDigits terminates. */
  lemma DivMod(n: nat, b: nat)
    requires b > 1 && n > 0
    ensures (n / b) * b + n % b == n
    ensures n / b < n && n % b < b
  {
    Euclid(n, b);
    MulAtLeastDouble(b, n / b);
    assert (n / b) * b == b * (n / b);
  }

  /** The value of numeral `s` read in base `|digits|`: the left fold
      `x = x * base + digits.index(c)` over the characters of `s`. */
  function FromDigits(s: string, digits: string): (x: nat)
    requires IsAlphabet(digits) && AllDigits(s, digits)
    decreases |s|
  {
    if s == [] then 0
    else FromDigits(s[..|s| - 1], digits) * |digits| + IndexOf(digits, s[|s| - 1])
  }

  /** The numeral for `n` in base `|digits|`: `digits[0]` for zero, otherwise the
      remainders of repeated division written most significant first. */
  function ToDigits(n: nat, digits: string): (s: string)
    requires IsAlphabet(digits)
    ensures |s| >= 1
    ensures AllDigits(s, digits)
    ensures n < |digits| <==> |s| == 1
    ensures n > 0 ==> s[0] != digits[0]
    decreases n
  {
    if n < |digits| then [digits[n]]
    else ToDigits(n / |digits|, digits) + [digits[n % |digits|]]
  }

  /** A numeral with no redundant leading zero digit. */
  predicate Canonical(s: string, digits: string)
    requires |digits| >= 1
  {
    |s| >= 1 && (s[0] == digits[0] ==> |s| == 1)
  }

  /** Reading back what was written gives the number: the converter round-trips. */
  lemma {:induction false} FromToDigits(n: nat, digits: string)
    requires IsAlphabet(digits)
    ensures FromDigits(ToDigits(n, digits), digits) == n
    decreases n
  {
    var b := |digits|;
    if n < b {
      IndexOfDigit(digits, n);
      FromDigitsSnoc([], digits[n], digits);
      assert [] + [digits[n]] == ToDigits(n, digits);
    } else {
      var q, d := n / b, n % b;
      DivMod(n, b);
      var t := ToDigits(q, digits);
      assert ToDigits(n, digits) == t + [digits[d]];
      FromToDigits(q, digits);
      IndexOfDigit(digits, d);
      FromDigitsSnoc(t, digits[d], digits);
    }
  }

  lemma DivModOfDigit(x: nat, d: nat, b: nat)
    requires d < b
    ensures (x * b + d) / b == x && (x * b + d) % b == d
  {
    var n := x * b + d;
    Euclid(n, b);
    var q, r := n / b, n % b;
    assert b * q + r == b * x + d;
    if q > x {
      MulMono(b, x + 1, q);
    } else if q < x {
      MulMono(b, q + 1, x);
    }
  }

  lemma {:induction false} MulMono(b: nat, a: nat, c: nat)
    requires a <= c
    ensures b * a <= b * c
    decreases c - a
  {
    if a < c {
      MulMono(b, a, c - 1);
      assert b * c == b * (c - 1) + b;
    }
  }

  /** Writing a number gives a canonical numeral, so `ToDigits` is injective. */
  lemma ToDigitsCanonical(n: nat, digits: string)
    requires IsAlphabet(digits)
    ensures Canonical(ToDigits(n, digits), digits)
  {
  }

  lemma ToDigitsInjective(m: nat, n: nat, digits: string)
    requires IsAlphabet(digits) && ToDigits(m, digits) == ToDigits(n, digits)
    ensures m == n
  {
    FromToDigits(m, digits);
    FromToDigits(n, digits);
  }

  /** A numeral reads as zero exactly when each of its characters is the zero digit. */
  lemma {:induction false} FromDigitsZero(s: string, digits: string)
    requires IsAlphabet(digits) && AllDigits(s, digits)
    ensures FromDigits(s, digits) == 0 <==> forall i :: 0 <= i < |s| ==> s[i] == digits[0]
    decreases |s|
  {
    if s != [] {
      var p := s[..|s| - 1];
      FromDigitsZero(p, digits);
      IndexOfDigit(digits, 0);
      var d := IndexOf(digits, s[|s| - 1]);
      assert s == p + [s[|s| - 1]];
      FromDigitsSnoc(p, s[|s| - 1], digits);
      assert (forall i :: 0 <= i < |s| ==> s[i] == digits[0]) <==>
             (forall i :: 0 <= i < |p| ==> p[i] == digits[0]) && d == 0;
    }
  }

  /** Writing what was read gives the numeral back exactly when it is canonical;
      a numeral with leading zero digits reads as the same number as its
      canonical form, so several numerals name one value. */
  lemma {:induction false} ToFromDigits(s: string, digits: string)
    requires IsAlphabet(digits) && AllDigits(s, digits) && |s| >= 1
    ensures ToDigits(FromDigits(s, digits), digits) == s <==> Canonical(s, digits)
    decreases |s|
  {
    var b := |digits|;
    var n := FromDigits(s, digits);
    if Canonical(s, digits) {
      var p, c := s[..|s| - 1], s[|s| - 1];
      assert s == p + [c];
      var d := IndexOf(digits, c);
      FromDigitsSnoc(p, c, digits);
      if p == [] {
        assert n == d;
      } else {
        var x := FromDigits(p, digits);
        assert p[0] == s[0];
        ToFromDigits(p, digits);
        FromDigitsZero(p, digits);
        assert x > 0;
        DivModOfDigit(x, d, b);
        MulMono(b, 1, x);
        assert n >= b;
        assert ToDigits(n, digits) == ToDigits(x, digits) + [digits[d]];
      }
    } else {
      ToDigitsCanonical(n, digits);
    }
  }

  // Decimal numerals, as Python's str() and int() write and read them.

  const DecimalDigits := "0123456789"

  lemma DecimalIsAlphabet()
    ensures IsAlphabet(DecimalDigits)
  {
  }

  /** `str(n)` for a non-negative int. */
  function Decimal(n: nat): (s: string)
    ensures |s| >= 1 && AllDigits(s, DecimalDigits)
    ensures Canonical(s, DecimalDigits)
  {
    DecimalIsAlphabet();
    ToDigitsCanonical(n, DecimalDigits);
    ToDigits(n, DecimalDigits)
  }

  function DecimalValue(s: string): (n: nat)
    requires AllDigits(s, DecimalDigits)
  {
    DecimalIsAlphabet();
    FromDigits(s, DecimalDigits)
  }

  lemma DecimalRoundTrip(n: nat)
    ensures DecimalValue(Decimal(n)) == n
  {
    DecimalIsAlphabet();
    FromToDigits(n, DecimalDigits);
  }

  lemma DecimalInjective(m: nat, n: nat)
    requires Decimal(m) == Decimal(n)
    ensures m == n
  {
    DecimalRoundTrip(m);
    DecimalRoundTrip(n);
  }
}

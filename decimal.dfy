/**
 * Decimal conversion of `printf`: the `%d` and `%05d` conversions of an
 * `int`, and, as their inverse, the value a run of digits denotes.
 */
module Decimal {
  import opened Options

  predicate IsDigit(c: char) {
    '0' <= c <= '9'
  }

  predicate AllDigits(s: seq<char>) {
    forall i :: 0 <= i < |s| ==> IsDigit(s[i])
  }

  /** Text that a numeric conversion may produce: digits and the minus sign only. */
  predicate Numeric(s: seq<char>) {
    forall i :: 0 <= i < |s| ==> IsDigit(s[i]) || s[i] == '-'
  }

  function DigitValue(c: char): (d: nat)
    requires IsDigit(c)
    ensures d < 10
  {
    c as int - '0' as int
  }

  function DigitChar(d: nat): (c: char)
    requires d < 10
    ensures IsDigit(c) && DigitValue(c) == d
  {
    ('0' as int + d) as char
  }

  function Pow10(k: nat): (p: nat)
    ensures p >= 1
  {
    if k == 0 then 1 else 10 * Pow10(k - 1)
  }

  /** The digits `%d` prints for `n >= 0`: most significant first, no leading zero. */
  function Digits(n: nat): (s: seq<char>)
    ensures 1 <= |s| && AllDigits(s)
    ensures s[0] == '0' ==> n == 0
    decreases n
  {
    if n < 10 then [DigitChar(n)] else Digits(n / 10) + [DigitChar(n % 10)]
  }

  /** The number a run of decimal digits denotes (leading zeros allowed). */
  function Value(s: seq<char>): nat
    requires AllDigits(s)
  {
    if s == [] then 0 else Value(s[..|s| - 1]) * 10 + DigitValue(s[|s| - 1])
  }

  /** Reading back the digits of `n` gives `n`. */
  lemma {:induction false} ValueOfDigits(n: nat)
    ensures Value(Digits(n)) == n
  {
    if n >= 10 {
      var s := Digits(n);
      assert s[..|s| - 1] == Digits(n / 10);
      ValueOfDigits(n / 10);
    }
  }

  /** A number below `10^k` takes at most `k` digits. */
  lemma {:induction false} DigitsLength(n: nat, k: nat)
    requires 1 <= k && n < Pow10(k)
    ensures |Digits(n)| <= k
  {
    if n >= 10 {
      assert k != 1;
      DigitsLength(n / 10, k - 1);
    }
  }

  /** Leading zeros do not change the value of a digit string. */
  lemma {:induction false} ValueIgnoresLeadingZeros(z: seq<char>, s: seq<char>)
    requires forall i :: 0 <= i < |z| ==> z[i] == '0'
    requires AllDigits(s)
    ensures AllDigits(z + s) && Value(z + s) == Value(s)
  {
    if s == [] {
      assert z + s == z;
      ValueOfZeros(z);
    } else {
      assert (z + s)[..|z + s| - 1] == z + s[..|s| - 1];
      ValueIgnoresLeadingZeros(z, s[..|s| - 1]);
    }
  }

  lemma {:induction false} ValueOfZeros(z: seq<char>)
    requires forall i :: 0 <= i < |z| ==> z[i] == '0'
    ensures AllDigits(z) && Value(z) == 0
  {
    if z != [] {
      ValueOfZeros(z[..|z| - 1]);
    }
  }

  /** `s` right-aligned in a field of `width` characters, padded with `'0'`. */
  function ZeroPad(s: seq<char>, width: nat): (r: seq<char>)
    ensures |r| == if |s| >= width then |s| else width
    ensures r[|r| - |s|..] == s
    ensures forall i :: 0 <= i < |r| - |s| ==> r[i] == '0'
  {
    if |s| >= width then s else seq(width - |s|, _ => '0') + s
  }

  /** `%d` of a C `int`: an optional minus sign, then the digits of the magnitude. */
  function FormatInt(n: int): (s: seq<char>)
  {
    if n < 0 then ['-'] + Digits(-n) else Digits(n)
  }

  /**
   * `%05d` of a C `int`: the zero flag pads with `'0'` between the sign and
   * the digits until the field, sign included, is five characters wide.
   */
  function FormatInt05(n: int): (s: seq<char>)
  {
    if n < 0 then ['-'] + ZeroPad(Digits(-n), 4) else ZeroPad(Digits(n), 5)
  }

  /** Reads an optionally signed decimal integer; the inverse of both conversions. */
  function ParseInt(s: seq<char>): Option<int> {
    if |s| >= 2 && s[0] == '-' && AllDigits(s[1..]) then Some(-(Value(s[1..]) as int))
    else if |s| >= 1 && AllDigits(s) then Some(Value(s))
    else None
  }

  /** A non-empty run of digits reads as its value. */
  lemma ParseUnsigned(d: seq<char>)
    requires |d| >= 1 && AllDigits(d)
    ensures Numeric(d) && ParseInt(d) == Some(Value(d) as int)
  {
  }

  /** A minus sign before a non-empty run of digits reads as the negated value. */
  lemma ParseSigned(d: seq<char>)
    requires |d| >= 1 && AllDigits(d)
    ensures Numeric(['-'] + d) && ParseInt(['-'] + d) == Some(-(Value(d) as int))
  {
    assert (['-'] + d)[1..] == d;
  }

  /** `%d` output is numeric text that reads back as the number printed. */
  lemma FormatIntRoundTrip(n: int)
    ensures Numeric(FormatInt(n)) && ParseInt(FormatInt(n)) == Some(n)
  {
    if n < 0 {
      ValueOfDigits(-n);
      ParseSigned(Digits(-n));
    } else {
      ValueOfDigits(n);
      ParseUnsigned(Digits(n));
    }
  }

  /** Zero padding keeps a digit string's value. */
  lemma ZeroPadValue(d: seq<char>, width: nat)
    requires AllDigits(d)
    ensures AllDigits(ZeroPad(d, width)) && Value(ZeroPad(d, width)) == Value(d)
  {
    var p := ZeroPad(d, width);
    assert p == p[..|p| - |d|] + d;
    ValueIgnoresLeadingZeros(p[..|p| - |d|], d);
  }

  /** `%05d` output is numeric text that reads back as the number printed, whatever its sign. */
  lemma FormatInt05RoundTrip(n: int)
    ensures Numeric(FormatInt05(n)) && ParseInt(FormatInt05(n)) == Some(n)
  {
    if n < 0 {
      PaddedNegativeRoundTrip(n);
    } else {
      PaddedRoundTrip(n);
    }
  }

  /**
   * The sign counts in the width of `%05d`: a negative number whose
   * magnitude is below 10000 fills exactly five characters, the first a `-`.
   */
  lemma NegativeWidth(n: int)
    requires n < 0
    ensures -10000 < n ==> |FormatInt05(n)| == 5 && FormatInt05(n)[0] == '-'
  {
    if -10000 < n {
      DigitsLength(-n, 4);
    }
  }

  /** A negative number: the sign, then the magnitude padded to four digits. */
  lemma PaddedNegativeRoundTrip(n: int)
    requires n < 0
    ensures Numeric(FormatInt05(n)) && ParseInt(FormatInt05(n)) == Some(n)
  {
    var d := Digits(-n);
    ValueOfDigits(-n);
    ZeroPadValue(d, 4);
    var p := ZeroPad(d, 4);
    assert Value(p) == -n;
    ParseSigned(p);
  }

  /** A non-negative number padded to five digits. */
  lemma PaddedRoundTrip(n: int)
    requires n >= 0
    ensures Numeric(FormatInt05(n)) && ParseInt(FormatInt05(n)) == Some(n)
  {
    var d := Digits(n);
    ValueOfDigits(n);
    ZeroPadValue(d, 5);
    var p := ZeroPad(d, 5);
    assert Value(p) == n;
    ParseUnsigned(p);
  }

  /** A five-digit magnitude does not fit beside the sign: the field widens to six characters. */
  lemma WideNegativeField()
    ensures FormatInt05(-50000) == "-50000"
  {
    assert Digits(5000) == "5000" by {
      assert Digits(5) == "5";
      assert Digits(50) == "50";
      assert Digits(500) == "500";
    }
  }

  /** For `0 <= n <= 99999`, `%05d` prints exactly five digits. */
  lemma FormatInt05Width(n: int)
    requires 0 <= n < Pow10(5)
    ensures |FormatInt05(n)| == 5 && AllDigits(FormatInt05(n))
  {
    DigitsLength(n, 5);
  }
}

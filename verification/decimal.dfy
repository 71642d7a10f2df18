/** Decimal rendering of naturals: Python's `str(n)` and `f"{n:04d}"`, with a parser
    that inverts them. */
module Decimal {
  import opened Chars

  function DigitChar(d: nat): (c: char)
    requires d < 10
    ensures IsDigit(c) && c as int - '0' as int == d
  {
    ('0' as int + d) as char
  }

  function DigitValue(c: char): (d: nat)
    requires IsDigit(c)
    ensures d < 10 && DigitChar(d) == c
  {
    c as int - '0' as int
  }

  predicate AllDigits(s: string) {
    forall i :: 0 <= i < |s| ==> IsDigit(s[i])
  }

  /** `str(n)`: the shortest decimal numeral for `n`. */
  function Digits(n: nat): (r: string)
    ensures |r| > 0 && AllDigits(r)
    ensures |r| > 1 ==> r[0] != '0'
    ensures n < 10 <==> |r| == 1
  {
    if n < 10 then [DigitChar(n)] else Digits(n / 10) + [DigitChar(n % 10)]
  }

  /** The value of a decimal numeral; leading zeros do not count. */
  function Parse(s: string): nat
    requires AllDigits(s)
  {
    if |s| == 0 then 0 else 10 * Parse(s[..|s| - 1]) + DigitValue(s[|s| - 1])
  }

  /** Parsing a rendered number gives the number back. */
  lemma {:induction false} ParseDigits(n: nat)
    ensures Parse(Digits(n)) == n
  {
    if n >= 10 {
      ParseDigits(n / 10);
      var s := Digits(n);
      assert s[..|s| - 1] == Digits(n / 10);
    }
  }

  /** Rendering a parsed canonical numeral gives the numeral back. */
  lemma {:induction false} DigitsParse(s: string)
    requires |s| > 0 && AllDigits(s)
    requires |s| > 1 ==> s[0] != '0'
    ensures Digits(Parse(s)) == s
  {
    if |s| > 1 {
      var p := s[..|s| - 1];
      DigitsParse(p);
      ParsePositive(p);
      assert s == p + [s[|s| - 1]];
    }
  }

  lemma {:induction false} ParsePositive(s: string)
    requires |s| > 0 && AllDigits(s) && s[0] != '0'
    ensures Parse(s) >= 1
  {
    if |s| > 1 {
      ParsePositive(s[..|s| - 1]);
    }
  }

  /** Distinct numbers render differently. */
  lemma DigitsInjective(m: nat, n: nat)
    requires Digits(m) == Digits(n)
    ensures m == n
  {
    ParseDigits(m);
    ParseDigits(n);
  }

  function Zeros(k: nat): (r: string)
    ensures |r| == k
    ensures forall i :: 0 <= i < k ==> r[i] == '0'
  {
    seq(k, _ => '0')
  }

  /** `f"{n:04d}"`: the numeral of `n` left-padded with zeros to at least four digits. */
  function Pad4(n: nat): (r: string)
    ensures |r| >= 4 && AllDigits(r)
    ensures |r| == if |Digits(n)| >= 4 then |Digits(n)| else 4
  {
    var d := Digits(n);
    if |d| >= 4 then d else Zeros(4 - |d|) + d
  }

  lemma {:induction false} ParseLeadingZeros(k: nat, s: string)
    requires AllDigits(s)
    ensures Parse(Zeros(k) + s) == Parse(s)
  {
    if |s| == 0 {
      assert Zeros(k) + s == Zeros(k);
      ParseZeros(k);
    } else {
      var t := Zeros(k) + s;
      assert t[..|t| - 1] == Zeros(k) + s[..|s| - 1];
      ParseLeadingZeros(k, s[..|s| - 1]);
    }
  }

  lemma {:induction false} ParseZeros(k: nat)
    ensures Parse(Zeros(k)) == 0
  {
    if k > 0 {
      assert Zeros(k)[..k - 1] == Zeros(k - 1);
      ParseZeros(k - 1);
    }
  }

  /** The padded index still reads back as the index. */
  lemma Pad4Parse(n: nat)
    ensures Parse(Pad4(n)) == n
  {
    ParseDigits(n);
    var d := Digits(n);
    if |d| < 4 {
      ParseLeadingZeros(4 - |d|, d);
    }
  }

  /** Below 10000 the padded index is exactly four characters wide. */
  lemma Pad4Width(n: nat)
    ensures n < 10000 <==> |Pad4(n)| == 4
  {
    DigitsLength(n);
  }

  lemma {:induction false} DigitsLength(n: nat)
    ensures n < 10000 <==> |Digits(n)| <= 4
    ensures n < 1000 <==> |Digits(n)| <= 3
    ensures n < 100 <==> |Digits(n)| <= 2
  {
    if n >= 10 {
      DigitsLength(n / 10);
    }
  }
}

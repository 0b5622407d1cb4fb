/**
 * The names under which screenshots are saved: the base name, an underscore,
 * a four-digit random number and the extension ".png". The random number is a
 * parameter, drawn by the caller from 1000..9999.
 */
module FileNames {
  predicate IsDigit(c: char) { '0' <= c <= '9' }

  predicate AllDigits(s: string) {
    forall i :: 0 <= i < |s| ==> IsDigit(s[i])
  }

  function DigitChar(d: int): (c: char)
    requires 0 <= d < 10
    ensures IsDigit(c) && c as int - '0' as int == d
  {
    ('0' as int + d) as char
  }

  /** The number a string of decimal digits denotes, most significant digit first. */
  function DecimalValue(s: string): nat
    requires AllDigits(s)
  {
    if s == [] then 0
    else DecimalValue(s[..|s| - 1]) * 10 + (s[|s| - 1] as int - '0' as int)
  }

  /** Python's `str(n)` for a non-negative integer: its decimal digits, no leading zero. */
  function DecimalString(n: nat): (s: string)
    ensures AllDigits(s) && |s| >= 1
    ensures s[0] == '0' <==> n == 0
    ensures DecimalValue(s) == n
    ensures n < 10 ==> |s| == 1
    ensures n >= 10 ==> |s| == |DecimalString(n / 10)| + 1
  {
    if n < 10 then [DigitChar(n)]
    else
      var prefix := DecimalString(n / 10);
      var s := prefix + [DigitChar(n % 10)];
      assert s[..|s| - 1] == prefix;
      s
  }

  /** Every number the caller can draw, 1000..9999, is written with exactly four digits. */
  lemma FourDigits(n: nat)
    requires 1000 <= n <= 9999
    ensures |DecimalString(n)| == 4
  {
    assert |DecimalString(n / 1000)| == 1;
    assert |DecimalString(n / 100)| == 2;
    assert |DecimalString(n / 10)| == 3;
  }

  /**
   * `generate_random_filename`: `base + "_" + str(n) + ".png"`. The four characters
   * after the underscore are the digits of n, so the name determines n.
   */
  function RandomFileName(base: string, n: int): (name: string)
    requires 1000 <= n <= 9999
    ensures |name| == |base| + 9
    ensures name[..|base|] == base && name[|base|] == '_' && name[|base| + 5..] == ".png"
    ensures AllDigits(name[|base| + 1..|base| + 5]) && name[|base| + 1] != '0'
    ensures DecimalValue(name[|base| + 1..|base| + 5]) == n
  {
    FourDigits(n);
    var digits := DecimalString(n);
    var name := base + "_" + digits + ".png";
    assert name[|base| + 1..|base| + 5] == digits;
    name
  }

  /** Distinct random numbers give distinct names for the same base. */
  lemma RandomFileNameInjective(base: string, n: int, m: int)
    requires 1000 <= n <= 9999 && 1000 <= m <= 9999
    ensures RandomFileName(base, n) == RandomFileName(base, m) <==> n == m
  {
  }
}

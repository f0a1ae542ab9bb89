/**
 * The two pieces of string handling the login view relies on:
 * Python's `str(n)` for a non-negative integer (the suffix in `f"{base}_{n}"`)
 * and `email.split('@')[0]` (the base username).
 */
module Text {

  predicate IsDigit(c: char) {
    '0' <= c <= '9'
  }

  /** The character of a single decimal digit. */
  function DigitChar(d: nat): (c: char)
    requires d < 10
    ensures IsDigit(c) && c as int - '0' as int == d
  {
    ('0' as int + d) as char
  }

  /** Python's `str(n)` for `n >= 0`: decimal digits, no sign, no leading zero. */
  function Decimal(n: nat): (s: string)
    ensures |s| >= 1
    ensures forall i :: 0 <= i < |s| ==> IsDigit(s[i])
    ensures n >= 10 ==> |s| >= 2
    ensures s[0] == '0' <==> n == 0
  {
    if n < 10 then [DigitChar(n)] else Decimal(n / 10) + [DigitChar(n % 10)]
  }

  /** Reads a string of decimal digits back as a number (the reference for `Decimal`). */
  function DecimalValue(s: string): (n: nat)
    requires forall i :: 0 <= i < |s| ==> IsDigit(s[i])
  {
    if s == [] then 0
    else
      assert IsDigit(s[|s| - 1]);
      DecimalValue(s[..|s| - 1]) * 10 + (s[|s| - 1] as int - '0' as int)
  }

  /** Rendering a number and reading it back gives the number. */
  lemma {:induction false} DecimalRoundTrip(n: nat)
    ensures DecimalValue(Decimal(n)) == n
  {
    if n >= 10 {
      var s := Decimal(n);
      assert s[..|s| - 1] == Decimal(n / 10);
      DecimalRoundTrip(n / 10);
    }
  }

  /** Distinct numbers have distinct renderings, so `base_1`, `base_2`, ... are all different. */
  lemma DecimalInjective(m: nat, n: nat)
    requires Decimal(m) == Decimal(n)
    ensures m == n
  {
    DecimalRoundTrip(m);
    DecimalRoundTrip(n);
  }

  /**
   * `email.split('@')[0]`: the part of `email` before its first '@',
   * or all of `email` when it has no '@'.
   */
  function LocalPart(email: string): (base: string)
    ensures base <= email
    ensures '@' !in base
    ensures |base| < |email| ==> email[|base|] == '@'
  {
    if email == [] then []
    else if email[0] == '@' then []
    else [email[0]] + LocalPart(email[1..])
  }

  /** The three properties in LocalPart's contract pin its result down: any such prefix is it. */
  lemma LocalPartUnique(email: string, p: string)
    requires p <= email && '@' !in p
    requires |p| < |email| ==> email[|p|] == '@'
    ensures p == LocalPart(email)
  {
  }

  /** The base is the whole email exactly when the email has no '@'. */
  lemma LocalPartWhole(email: string)
    ensures LocalPart(email) == email <==> '@' !in email
  {
    if '@' !in email {
      LocalPartUnique(email, email);
    }
  }
}

/**
 * Decimal text of unsigned integers, as Rust's integer `Display` writes them
 * (the `{}` of a `u32` line or column, and of a `usize` frame index): the
 * digits of the number, most significant first, with no sign, no padding and
 * no leading zero. A parser is given beside it as its inverse.
 */
module Decimal {
  import opened Wrappers

  predicate IsDigit(c: char) {
    '0' <= c <= '9'
  }

  predicate AllDigits(s: string) {
    forall i :: 0 <= i < |s| ==> IsDigit(s[i])
  }

  /** The character for a single decimal digit. */
  function DigitChar(d: nat): (c: char)
    requires d < 10
    ensures IsDigit(c) && c as int - '0' as int == d
  {
    (d + '0' as int) as char
  }

  /** The value of a single decimal digit character. */
  function DigitValue(c: char): (d: nat)
    requires IsDigit(c)
    ensures d < 10 && DigitChar(d) == c
  {
    c as int - '0' as int
  }

  /** The decimal text of `n`. */
  function FromNat(n: nat): (s: string)
    ensures 1 <= |s| && AllDigits(s)
    ensures s[0] == '0' <==> n == 0
    ensures n == 0 ==> s == "0"
    decreases n
  {
    if n < 10 then [DigitChar(n)] else FromNat(n / 10) + [DigitChar(n % 10)]
  }

  /** Numbers below ten print as their one digit, numbers below a hundred as two. */
  lemma SmallFromNat(n: nat)
    requires n < 100
    ensures n < 10 ==> FromNat(n) == [DigitChar(n)]
    ensures 10 <= n ==> FromNat(n) == [DigitChar(n / 10), DigitChar(n % 10)]
  {
  }

  /** The number a string of digits denotes (leading zeros allowed). */
  function ToNat(s: string): nat
    requires AllDigits(s)
    decreases |s|
  {
    if s == [] then 0 else 10 * ToNat(s[..|s| - 1]) + DigitValue(s[|s| - 1])
  }

  /** A digit string as `FromNat` writes it: non-empty, and no leading zero unless it is "0". */
  predicate Canonical(s: string) {
    1 <= |s| && AllDigits(s) && (s[0] != '0' || s == "0")
  }

  /**
   * Reads a non-empty string of digits back as a number; on the strings
   * `FromNat` writes, printing the number gives the string back.
   */
  function Parse(s: string): (r: Option<nat>)
    ensures r.Some? <==> 1 <= |s| && AllDigits(s)
    ensures r.Some? && Canonical(s) ==> FromNat(r.value) == s
  {
    if 1 <= |s| && AllDigits(s) then FromNatToNat(s); Some(ToNat(s)) else None
  }

  /** Reading the decimal text of `n` gives `n` back. */
  lemma {:induction false} ToNatFromNat(n: nat)
    ensures ToNat(FromNat(n)) == n
    decreases n
  {
    var s := FromNat(n);
    if n >= 10 {
      ToNatFromNat(n / 10);
      assert s[..|s| - 1] == FromNat(n / 10);
      assert s[|s| - 1] == DigitChar(n % 10);
    } else {
      assert s[..|s| - 1] == [];
    }
  }

  /** Every canonical digit string is the decimal text of the number it denotes. */
  lemma {:induction false} FromNatToNat(s: string)
    requires AllDigits(s)
    ensures Canonical(s) ==> FromNat(ToNat(s)) == s
    decreases |s|
  {
    if Canonical(s) && |s| >= 2 {
      var prefix := s[..|s| - 1];
      assert Canonical(prefix) by {
        assert prefix[0] == s[0];
      }
      FromNatToNat(prefix);
      var p := ToNat(prefix);
      assert p != 0 by {
        assert FromNat(p)[0] == s[0];
      }
      var d := DigitValue(s[|s| - 1]);
      assert ToNat(s) / 10 == p && ToNat(s) % 10 == d;
      assert FromNat(ToNat(s)) == FromNat(p) + [DigitChar(d)];
      assert s == prefix + [s[|s| - 1]];
    }
  }

  /** The parser is a left inverse of the printer. */
  lemma ParseFromNat(n: nat)
    ensures Parse(FromNat(n)) == Some(n)
  {
    ToNatFromNat(n);
  }

  /** Distinct numbers have distinct decimal texts. */
  lemma FromNatInjective(a: nat, b: nat)
    ensures FromNat(a) == FromNat(b) ==> a == b
  {
    ToNatFromNat(a);
    ToNatFromNat(b);
  }
}

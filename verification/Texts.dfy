/** How numbers are written in decimal and characters in UTF-8. */
module Texts {
  function Digits(n: nat): (d: nat)
    ensures d >= 1
  {
    if n < 10 then 1 else 1 + Digits(n / 10)
  }

  /** A number in decimal digits. */
  function Decimal(n: nat): (s: string)
    ensures |s| == Digits(n) && IsDigits(s)
  {
    if n < 10 then ["0123456789"[n]] else Decimal(n / 10) + ["0123456789"[n % 10]]
  }

  predicate IsDigits(s: string) {
    forall i :: 0 <= i < |s| ==> '0' <= s[i] <= '9'
  }

  function DigitsValue(s: string): nat
    requires IsDigits(s)
  {
    if s == "" then 0 else DigitsValue(s[..|s| - 1]) * 10 + (s[|s| - 1] as int - '0' as int)
  }

  /** Reading what was written gives the number back. */
  lemma {:induction false} DecimalValue(n: nat)
    ensures DigitsValue(Decimal(n)) == n
  {
    if n >= 10 {
      DecimalValue(n / 10);
      assert Decimal(n)[..|Decimal(n)| - 1] == Decimal(n / 10);
    } else {
      assert Decimal(n)[..0] == "";
    }
  }

  function Pow10(k: nat): nat {
    if k == 0 then 1 else 10 * Pow10(k - 1)
  }

  lemma {:induction false} DigitsBound(n: nat, k: nat, power: nat)
    requires n < power && power == Pow10(k) && k >= 1
    ensures Digits(n) <= k
    decreases k
  {
    if n >= 10 {
      DigitsBound(n / 10, k - 1, Pow10(k - 1));
    }
  }

  // ── UTF-8 (RFC 3629, section 3) ───────────────────────────────────────

  function Utf8Width(c: char): nat {
    if (c as int) < 0x80 then 1 else if (c as int) < 0x800 then 2 else if (c as int) < 0x1_0000 then 3 else 4
  }

  /** `len(s.encode("utf-8"))`. */
  function Utf8Length(s: string): nat {
    if s == "" then 0 else Utf8Length(s[..|s| - 1]) + Utf8Width(s[|s| - 1])
  }

  /** How many code points w bytes can carry: 7 bits in one byte, 11 in two, and 5 more with each further one. */
  function Carried(w: nat): nat {
    if w == 0 then 0 else if w == 1 then 128 else if w == 2 then 128 * 16 else 32 * Carried(w - 1)
  }

  /** A character takes the fewest bytes that carry it, and a string as many as its parts. */
  lemma Utf8Exact(c: char, a: string, b: string)
    ensures 1 <= Utf8Width(c) <= 4 && Carried(Utf8Width(c) - 1) <= c as int < Carried(Utf8Width(c))
    ensures Utf8Length("") == 0 && Utf8Length([c]) == Utf8Width(c) && Utf8Length(a + b) == Utf8Length(a) + Utf8Length(b)
  {
    assert Carried(2) == 0x800 && Carried(3) == 0x1_0000 && Carried(4) == 0x20_0000;
    assert [c][..0] == "";
    Utf8Concat(a, b);
  }

  lemma {:induction false} Utf8Concat(a: string, b: string)
    ensures Utf8Length(a + b) == Utf8Length(a) + Utf8Length(b)
  {
    if b == "" {
      assert a + b == a;
    } else {
      Utf8Concat(a, b[..|b| - 1]);
      assert (a + b)[..|a + b| - 1] == a + b[..|b| - 1];
    }
  }
}

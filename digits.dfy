/** Decimal digit strings: fixed-width ("%0Nd"), plain ("%d") and grouped by thousands (","). */
module Digits {

  predicate IsDigit(c: char) {
    '0' <= c <= '9'
  }

  predicate AllDigits(s: string) {
    forall i :: 0 <= i < |s| ==> IsDigit(s[i])
  }

  function DigitChar(d: nat): (c: char)
    requires d < 10
    ensures IsDigit(c) && DigitValue(c) == d
  {
    (48 + d) as char
  }

  function DigitValue(c: char): nat
    requires IsDigit(c)
  {
    c as int - 48
  }

  function Pow10(w: nat): (p: nat)
    ensures p >= 1
  {
    if w == 0 then 1 else 10 * Pow10(w - 1)
  }

  /** The value of a digit string, most significant digit first; the empty string is 0. */
  function ParseNat(s: string): nat
    requires AllDigits(s)
  {
    if s == [] then 0 else 10 * ParseNat(s[..|s| - 1]) + DigitValue(s[|s| - 1])
  }

  lemma {:induction false} ParseBound(s: string)
    requires AllDigits(s)
    ensures ParseNat(s) < Pow10(|s|)
  {
    if s != [] {
      ParseBound(s[..|s| - 1]);
    }
  }

  /** The last `w` decimal digits of `n`, zero-padded on the left. */
  function Pad(n: nat, w: nat): (s: string)
    ensures |s| == w && AllDigits(s)
  {
    if w == 0 then [] else Pad(n / 10, w - 1) + [DigitChar(n % 10)]
  }

  lemma {:induction false} ParsePad(n: nat, w: nat)
    requires n < Pow10(w)
    ensures ParseNat(Pad(n, w)) == n
  {
    if w > 0 {
      var s := Pad(n, w);
      assert s[..|s| - 1] == Pad(n / 10, w - 1);
      ParsePad(n / 10, w - 1);
    }
  }

  /** `str(n)` for a natural number: no leading zeros, "0" for zero. */
  function Decimal(n: nat): (s: string)
    ensures |s| >= 1 && AllDigits(s)
  {
    if n < 10 then [DigitChar(n)] else Decimal(n / 10) + [DigitChar(n % 10)]
  }

  lemma {:induction false} ParseDecimal(n: nat)
    ensures ParseNat(Decimal(n)) == n
  {
    if n >= 10 {
      var s := Decimal(n);
      assert s[..|s| - 1] == Decimal(n / 10);
      ParseDecimal(n / 10);
    } else {
      assert Decimal(n)[..0] == [];
    }
  }

  /** `format(n, ",")`: decimal digits with a comma between groups of three. */
  function Grouped(n: nat): (s: string)
    ensures |s| >= 1 && IsDigit(s[0])
  {
    if n < 1000 then Decimal(n) else Grouped(n / 1000) + "," + Pad(n % 1000, 3)
  }

  /** The digits of `s` with the commas dropped. */
  function Ungroup(s: string): (t: string)
    ensures |t| <= |s|
  {
    if s == [] then [] else (if s[0] == ',' then [] else [s[0]]) + Ungroup(s[1..])
  }

  lemma {:induction false} UngroupAppend(a: string, b: string)
    ensures Ungroup(a + b) == Ungroup(a) + Ungroup(b)
  {
    if a != [] {
      assert (a + b)[1..] == a[1..] + b;
      UngroupAppend(a[1..], b);
    } else {
      assert a + b == b;
    }
  }

  lemma {:induction false} UngroupDigits(s: string)
    requires AllDigits(s)
    ensures Ungroup(s) == s
  {
    if s != [] {
      UngroupDigits(s[1..]);
    }
  }

  /** Appending digits shifts the value left by their count. */
  lemma {:induction false} ParseAppend(a: string, b: string)
    requires AllDigits(a) && AllDigits(b)
    ensures AllDigits(a + b) && ParseNat(a + b) == ParseNat(a) * Pow10(|b|) + ParseNat(b)
  {
    var s := a + b;
    assert AllDigits(s) by {
      assert forall i :: 0 <= i < |s| ==> s[i] == if i < |a| then a[i] else b[i - |a|];
    }
    if b != [] {
      var b' := b[..|b| - 1];
      assert s[..|s| - 1] == a + b' && s[|s| - 1] == b[|b| - 1];
      ParseAppend(a, b');
      var x, p, q, d := ParseNat(a), Pow10(|b'|), ParseNat(b'), DigitValue(b[|b| - 1]);
      assert ParseNat(s) == 10 * (x * p + q) + d;
      assert ParseNat(b) == 10 * q + d;
      assert Pow10(|b|) == 10 * p;
      ShiftDigit(x, p, q, d);
    } else {
      assert s == a;
    }
  }

  lemma ShiftDigit(x: int, p: int, q: int, d: int)
    ensures 10 * (x * p + q) + d == x * (10 * p) + (10 * q + d)
  {
    assert x * (10 * p) == 10 * (x * p);
  }

  /** Grouped text is made of digits and commas, and with the commas dropped reads back as `n`. */
  lemma {:induction false} ParseGrouped(n: nat)
    ensures AllDigits(Ungroup(Grouped(n))) && ParseNat(Ungroup(Grouped(n))) == n
  {
    if n < 1000 {
      UngroupDigits(Decimal(n));
      ParseDecimal(n);
    } else {
      var g := Grouped(n / 1000);
      var p := Pad(n % 1000, 3);
      ParseGrouped(n / 1000);
      UngroupAppend(g + ",", p);
      UngroupAppend(g, ",");
      assert Ungroup(",") == [];
      UngroupDigits(p);
      assert Ungroup(Grouped(n)) == Ungroup(g) + p;
      assert Pow10(3) == 1000;
      ParseAppend(Ungroup(g), p);
      ParsePad(n % 1000, 3);
    }
  }
}

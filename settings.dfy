/**
 * The `app_settings` key/value table and the monthly budget stored in it: `get_setting`,
 * `get_monthly_budget` (`float(value)`, 0.0 on failure) and the text `set_monthly_budget` stores.
 */
module Settings {
  import opened Wrappers
  import opened Digits

  const BudgetKey: string := "monthly_budget"

  /** `get_setting(key, default)`: the stored value, or `default` when the key has no row. */
  function GetSetting(settings: map<string, string>, key: string, default: Option<string>): (v: Option<string>)
    ensures key in settings ==> v == Some(settings[key])
    ensures key !in settings ==> v == default
  {
    if key in settings then Some(settings[key]) else default
  }

  /** `INSERT OR REPLACE` then `get_setting`: the key reads back the value, every other key is unaffected. */
  lemma GetAfterSet(settings: map<string, string>, key: string, value: string, other: string, default: Option<string>)
    ensures GetSetting(settings[key := value], key, default) == Some(value)
    ensures other != key ==> GetSetting(settings[key := value], other, default) == GetSetting(settings, other, default)
  {
  }

  // ---------------------------------------------------------------- float()

  /** The index of the first '.' in `s`, or `|s|` when there is none. */
  function Dot(s: string): (k: nat)
    ensures k <= |s|
    ensures k < |s| ==> s[k] == '.'
    ensures forall i :: 0 <= i < k ==> s[i] != '.'
  {
    if s == [] then 0 else if s[0] == '.' then 0 else 1 + Dot(s[1..])
  }

  /** The value of the digits after a decimal point. */
  function Fraction(s: string): (v: real)
    requires AllDigits(s)
    ensures 0.0 <= v
  {
    ParseNat(s) as real / Pow10(|s|) as real
  }

  /** `digits [. digits]`, at least one digit in all. */
  function ParseUnsigned(s: string): (r: Option<real>)
    ensures r.Some? ==> r.value >= 0.0
  {
    var k := Dot(s);
    Unsigned(s[..k], if k < |s| then s[k + 1..] else "")
  }

  /** The value of a whole part and a fractional part, at least one digit in all. */
  function Unsigned(whole: string, frac: string): (r: Option<real>)
    ensures r.Some? ==> r.value >= 0.0
  {
    if AllDigits(whole) && AllDigits(frac) && |whole| + |frac| > 0 then
      Some(ParseNat(whole) as real + Fraction(frac))
    else None
  }

  /**
   * `float(s)` on plain decimal text: an optional sign, digits and an optional fractional
   * part.  Text that is not of that form is rejected.
   */
  function ParseFloat(s: string): (r: Option<real>)
    ensures s != [] && s[0] == '-' && r.Some? ==> r.value <= 0.0
    ensures (s == [] || s[0] != '-') && r.Some? ==> r.value >= 0.0
  {
    if s != [] && (s[0] == '-' || s[0] == '+') then
      match ParseUnsigned(s[1..])
      case None => None
      case Some(v) => Some(if s[0] == '-' then -v else v)
    else ParseUnsigned(s)
  }

  /** `get_monthly_budget()`: a missing setting reads as "0", and text `float` rejects as 0.0. */
  function MonthlyBudget(settings: map<string, string>): (b: real)
    ensures BudgetKey !in settings ==> b == 0.0
    ensures BudgetKey in settings && ParseFloat(settings[BudgetKey]).None? ==> b == 0.0
    ensures BudgetKey in settings && ParseFloat(settings[BudgetKey]).Some? ==> b == ParseFloat(settings[BudgetKey]).value
  {
    var text := GetSetting(settings, BudgetKey, Some("0")).value;
    assert ParseFloat("0") == Some(0.0) by {
      assert Dot("0") == 1;
      assert "0"[..1] == "0";
      assert ParseNat("0") == 0 by { assert "0"[..0] == ""; }
    }
    match ParseFloat(text)
    case None => 0.0
    case Some(v) => v
  }

  // ---------------------------------------------------------------- str(float)

  /** The fractional digits `repr` prints for `f` hundredths: "0", one digit, or two. */
  function Hundredths(f: nat): (s: string)
    requires f < 100
    ensures 1 <= |s| <= 2 && AllDigits(s)
  {
    if f == 0 then "0" else if f % 10 == 0 then [DigitChar(f / 10)] else Pad(f, 2)
  }

  /** 10^15: amounts of fewer hundredths have at most 15 significant digits. */
  const PlainLimit: int := 1_000_000_000_000_000

  /** The amounts `BudgetText` covers. */
  predicate InPlainRange(cents: int) {
    -PlainLimit < cents < PlainLimit
  }

  /**
   * `str(amount)` for an amount of `cents` hundredths: Python's shortest round-tripping `repr`,
   * which for fewer than 15 significant digits is the plain decimal form ("1500.0", "12.5", "-0.05").
   */
  function BudgetText(cents: int): (s: string)
    requires InPlainRange(cents)
    ensures |s| >= 3
    ensures s[0] == '-' <==> cents < 0
  {
    var m := if cents < 0 then -cents else cents;
    var body := Decimal(m / 100) + "." + Hundredths(m % 100);
    if cents < 0 then "-" + body else body
  }

  lemma {:induction false} DotAfterDigits(a: string, b: string)
    requires AllDigits(a)
    ensures Dot(a + "." + b) == |a|
  {
    if a != [] {
      assert (a + "." + b)[1..] == a[1..] + "." + b;
      DotAfterDigits(a[1..], b);
    }
  }

  lemma HundredthsValue(f: nat)
    requires f < 100
    ensures Fraction(Hundredths(f)) == f as real / 100.0
  {
    if f == 0 {
      assert "0"[..0] == "";
    } else if f % 10 == 0 {
      var s := [DigitChar(f / 10)];
      assert s[..0] == "";
      assert ParseNat(s) == f / 10;
    } else {
      ParsePad(f, 2);
    }
  }

  lemma UnsignedValue(m: nat)
    ensures ParseUnsigned(Decimal(m / 100) + "." + Hundredths(m % 100)) == Some(m as real / 100.0)
  {
    var q := m / 100;
    var f := m % 100;
    UnsignedOfParts(Decimal(q), Hundredths(f));
    ParseDecimal(q);
    HundredthsValue(f);
    CentsValue(m, q, f);
  }

  /** Digits, a dot and digits read as the whole part plus the fraction. */
  lemma UnsignedOfParts(w: string, h: string)
    requires AllDigits(w) && AllDigits(h) && |w| >= 1
    ensures ParseUnsigned(w + "." + h) == Unsigned(w, h)
  {
    var s := w + "." + h;
    DotAfterDigits(w, h);
    assert s[..|w|] == w;
    assert s[|w| + 1..] == h;
  }

  lemma CentsValue(m: int, q: int, f: int)
    requires m == 100 * q + f
    ensures q as real + f as real / 100.0 == m as real / 100.0
  {
    assert m as real == 100.0 * q as real + f as real;
  }

  /** What `set_monthly_budget(amount)` stores, `get_monthly_budget()` reads back as the same amount. */
  lemma BudgetRoundTrip(settings: map<string, string>, cents: int)
    requires InPlainRange(cents)
    ensures MonthlyBudget(settings[BudgetKey := BudgetText(cents)]) == cents as real / 100.0
  {
    BudgetTextParses(cents);
  }

  /** `float(str(amount))` is the amount. */
  lemma BudgetTextParses(cents: int)
    requires InPlainRange(cents)
    ensures ParseFloat(BudgetText(cents)) == Some(cents as real / 100.0)
  {
    var m := if cents < 0 then -cents else cents;
    var body := Decimal(m / 100) + "." + Hundredths(m % 100);
    UnsignedValue(m);
    assert body[0] == Decimal(m / 100)[0];
    SignedParse(body, m as real / 100.0);
    if cents < 0 {
      Negate(cents, m);
    }
  }

  /** A sign in front of unsigned text: none, or '-' negating its value. */
  lemma SignedParse(body: string, v: real)
    requires ParseUnsigned(body) == Some(v) && body != [] && body[0] != '-' && body[0] != '+'
    ensures ParseFloat(body) == Some(v) && ParseFloat("-" + body) == Some(-v)
  {
    assert ("-" + body)[1..] == body;
  }

  lemma Negate(cents: int, m: int)
    requires m == -cents
    ensures -(m as real / 100.0) == cents as real / 100.0
  {
  }
}

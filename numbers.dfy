/** The decimal subset of Python's `float(text)`, as `add_order` applies it to a service's
    price text: an optional sign, decimal digits, an optional point and more digits. */
module Numbers {
  import opened Wrappers

  predicate IsDigit(c: char) { '0' <= c <= '9' }

  predicate AllDigits(s: string) { forall i :: 0 <= i < |s| ==> IsDigit(s[i]) }

  /** A character that can occur in text the parser accepts. */
  predicate IsNumeralChar(c: char) { IsDigit(c) || c == '.' || c == '+' || c == '-' }

  function DigitValue(c: char): (d: nat)
    requires IsDigit(c)
    ensures d < 10
  {
    c as int - '0' as int
  }

  /** The value of a run of decimal digits, most significant digit first. */
  function DigitsValue(s: string): nat
    requires AllDigits(s)
  {
    if s == [] then 0 else DigitsValue(s[..|s| - 1]) * 10 + DigitValue(s[|s| - 1])
  }

  function Pow10(n: nat): (p: nat)
    ensures p >= 1
  {
    if n == 0 then 1 else 10 * Pow10(n - 1)
  }

  /** The position of the first '.' in `s`, or `|s|` when there is none. */
  function DotIndex(s: string): (k: nat)
    ensures k <= |s|
    ensures forall i :: 0 <= i < k ==> s[i] != '.'
    ensures k < |s| ==> s[k] == '.'
  {
    if s == [] || s[0] == '.' then 0 else 1 + DotIndex(s[1..])
  }

  /** The value of whole digits `whole` followed by fraction digits `frac`. */
  function DecimalValue(whole: string, frac: string): (v: real)
    requires AllDigits(whole) && AllDigits(frac)
    ensures DigitsValue(whole) as real <= v < DigitsValue(whole) as real + 1.0
  {
    DigitsBelow(frac);
    FractionBelowOne(DigitsValue(frac), Pow10(|frac|));
    DigitsValue(whole) as real + DigitsValue(frac) as real / Pow10(|frac|) as real
  }

  lemma FractionBelowOne(a: nat, b: nat)
    requires a < b
    ensures 0.0 <= a as real / b as real < 1.0
  {
    var q := a as real / b as real;
    assert q * b as real == a as real;
  }

  /** `n` digits denote less than 10^n. */
  lemma {:induction false} DigitsBelow(s: string)
    requires AllDigits(s)
    ensures DigitsValue(s) < Pow10(|s|)
  {
    if s != [] {
      var init := s[..|s| - 1];
      assert AllDigits(init) by {
        forall i | 0 <= i < |init| ensures IsDigit(init[i]) { assert init[i] == s[i]; }
      }
      DigitsBelow(init);
    }
  }

  /** An unsigned decimal: whole digits, then optionally '.' and fraction digits, with at
      least one digit in all ("7", "7.", ".5", "7.25"). */
  function ParseUnsigned(s: string): (r: Option<real>)
    ensures r.Some? ==> r.value >= 0.0
  {
    var k := DotIndex(s);
    var whole := s[..k];
    var frac := if k < |s| then s[k + 1..] else [];
    if AllDigits(whole) && AllDigits(frac) && |whole| + |frac| > 0 then
      Some(DecimalValue(whole, frac))
    else
      None
  }

  /** `float(s)` on the decimal subset; `None` stands for the exception `float` raises. */
  function ParseDecimal(s: string): (r: Option<real>)
    ensures r.Some? ==> s != []
  {
    if s != [] && s[0] == '-' then
      match ParseUnsigned(s[1..])
      case Some(v) => Some(-v)
      case None => None
    else if s != [] && s[0] == '+' then
      ParseUnsigned(s[1..])
    else
      ParseUnsigned(s)
  }

  lemma UnsignedRejects(s: string, i: nat)
    requires i < |s| && !IsNumeralChar(s[i])
    ensures ParseUnsigned(s) == None
  {
    var k := DotIndex(s);
    if i < k {
      assert s[..k][i] == s[i];
    } else {
      assert i != k;
      assert s[k + 1..][i - k - 1] == s[i];
    }
  }

  /** Text holding any character other than a digit, a point or a sign (a letter, a space,
      "по договоренности") does not parse. */
  lemma NonNumeralRejected(s: string, i: nat)
    requires i < |s| && !IsNumeralChar(s[i])
    ensures ParseDecimal(s) == None
  {
    if s[0] == '-' || s[0] == '+' {
      UnsignedRejects(s[1..], i - 1);
    } else {
      UnsignedRejects(s, i);
    }
  }

  /** Text without a sign that parses denotes a value that is not negative. */
  lemma UnsignedNonNegative(s: string)
    requires s == [] || s[0] != '-'
    requires ParseDecimal(s).Some?
    ensures ParseDecimal(s).value >= 0.0
  {
  }

  /** The decimal text of a natural number, as `str(n)` writes it. */
  function NatText(n: nat): (t: string)
    ensures t != [] && AllDigits(t)
    decreases n
  {
    if n < 10 then ['0' + n as char] else NatText(n / 10) + ['0' + (n % 10) as char]
  }

  lemma {:induction false} NatTextValue(n: nat)
    ensures DigitsValue(NatText(n)) == n
    decreases n
  {
    if n >= 10 {
      var t := NatText(n);
      assert t[..|t| - 1] == NatText(n / 10);
      NatTextValue(n / 10);
    }
  }

  /** Round trip: the decimal text of a whole price parses back to that price. */
  lemma ParseNatText(n: nat)
    ensures ParseDecimal(NatText(n)) == Some(n as real)
  {
    var t := NatText(n);
    NatTextValue(n);
    assert DotIndex(t) == |t|;
    assert t[..|t|] == t;
  }

  /** The first point of `w + "." + rest` is the one after `w` when `w` has none. */
  lemma {:induction false} DotIndexAfter(w: string, rest: string)
    requires forall i :: 0 <= i < |w| ==> w[i] != '.'
    ensures DotIndex(w + "." + rest) == |w|
  {
    if w != [] {
      assert (w + "." + rest)[1..] == w[1..] + "." + rest;
      DotIndexAfter(w[1..], rest);
    }
  }

  /** A run of digits parses to its value. */
  lemma WholeValue(w: string)
    requires AllDigits(w) && w != []
    ensures ParseDecimal(w) == Some(DigitsValue(w) as real)
  {
    assert DotIndex(w) == |w|;
    assert w[..|w|] == w;
  }

  lemma UnsignedPointValue(w: string, f: string)
    requires AllDigits(w) && AllDigits(f) && |w| + |f| > 0
    ensures ParseUnsigned(w + "." + f) == Some(DecimalValue(w, f))
  {
    var s := w + "." + f;
    forall i | 0 <= i < |w| ensures w[i] != '.' {
      assert IsDigit(w[i]);
    }
    DotIndexAfter(w, f);
    var k := DotIndex(s);
    assert k < |s|;
    var whole, frac := s[..k], s[k + 1..];
    assert whole == w && frac == f;
  }

  /** Digits, a point and digits parse to the whole part plus the fraction ("1500.50", ".5", "7."). */
  lemma PointValue(w: string, f: string)
    requires AllDigits(w) && AllDigits(f) && |w| + |f| > 0
    ensures ParseDecimal(w + "." + f) == Some(DecimalValue(w, f))
  {
    var s := w + "." + f;
    UnsignedPointValue(w, f);
    if w != [] {
      assert s[0] == w[0];
    } else {
      assert s[0] == '.';
    }
  }

  /** A leading '-' negates the value of the unsigned text after it; a leading '+' changes
      nothing; either way text that does not parse stays unparsed. */
  lemma SignValue(t: string)
    requires t == [] || (t[0] != '-' && t[0] != '+')
    ensures ParseDecimal("-" + t) == match ParseDecimal(t) case Some(v) => Some(-v) case None => None
    ensures ParseDecimal("+" + t) == ParseDecimal(t)
  {
    assert ("-" + t)[1..] == t;
    assert ("+" + t)[1..] == t;
  }
}

/** Python's `int()` and `float()` on the well-formed digit strings the rate feed
    carries, as exact conversions: `digits` for integers, `digits[.digits]` for
    decimals. Anything else is rejected with `None`, where Python raises `ValueError`. */
module Numbers {
  import opened Results

  predicate IsDigit(c: char) {
    '0' <= c <= '9'
  }

  predicate AllDigits(s: string) {
    forall i :: 0 <= i < |s| ==> IsDigit(s[i])
  }

  function DigitValue(c: char): nat
    requires IsDigit(c)
  {
    c as int - '0' as int
  }

  function Pow10(n: nat): (r: nat)
    ensures r > 0
  {
    if n == 0 then 1 else 10 * Pow10(n - 1)
  }

  /** The value of a digit string read in base ten, most significant digit first. */
  function DigitsValue(s: string): nat
    requires AllDigits(s)
    decreases |s|
  {
    if |s| == 0 then 0 else DigitsValue(s[..|s| - 1]) * 10 + DigitValue(s[|s| - 1])
  }

  /** The canonical decimal rendering of a natural number (no leading zeros). */
  function Digits(n: nat): (s: string)
    ensures |s| > 0 && AllDigits(s)
    ensures |s| > 1 ==> s[0] != '0'
    decreases n
  {
    if n < 10 then [('0' as int + n) as char]
    else Digits(n / 10) + [('0' as int + n % 10) as char]
  }

  /** `int(text)` on an unsigned digit string. */
  function ParseInt(s: string): (r: Option<nat>)
    ensures r.Some? <==> |s| > 0 && AllDigits(s)
    ensures r.Some? ==> r.value < Pow10(|s|)
  {
    if |s| > 0 && AllDigits(s) then
      DigitsValueBound(s);
      Some(DigitsValue(s))
    else None
  }

  /** The position of the first '.' in `s`, if there is one. */
  function FindDot(s: string): (r: Option<nat>)
    ensures r.None? <==> '.' !in s
    ensures r.Some? ==> r.value < |s| && s[r.value] == '.' && '.' !in s[..r.value]
  {
    if |s| == 0 then None
    else if s[0] == '.' then Some(0)
    else match FindDot(s[1..])
      case None => None
      case Some(k) =>
        assert s[..k + 1] == [s[0]] + s[1..][..k];
        Some(k + 1)
  }

  /** A dot at `k` splits `s` into two non-empty digit strings. */
  predicate DecimalParts(s: string, k: int)
    requires 0 <= k < |s|
  {
    0 < k < |s| - 1 && AllDigits(s[..k]) && AllDigits(s[k + 1..])
  }

  /** The texts read as decimals: `digits`, or `digits.digits`. */
  predicate DecimalText(s: string) {
    || (|s| > 0 && AllDigits(s))
    || exists k :: 0 <= k < |s| && s[k] == '.' && DecimalParts(s, k)
  }

  /** `float(text)` on `digits` or `digits.digits`, as an exact rational: the digits
      read as one integer, scaled down by ten per fractional digit. */
  function ParseDecimal(s: string): (r: Option<real>)
    ensures r.Some? <==> DecimalText(s)
    ensures r.Some? && '.' !in s ==> AllDigits(s) && r.value == DigitsValue(s) as real
    ensures forall k {:trigger DecimalParts(s, k)} :: 0 <= k < |s| && s[k] == '.' && r.Some? ==>
              DecimalParts(s, k) && AllDigits(s[..k] + s[k + 1..]) &&
              r.value == DigitsValue(s[..k] + s[k + 1..]) as real / Pow10(|s| - k - 1) as real
  {
    match FindDot(s)
    case None =>
      if |s| > 0 && AllDigits(s) then Some(DigitsValue(s) as real) else None
    case Some(k) =>
      OnlyDot(s, k);
      var whole, frac := s[..k], s[k + 1..];
      if |whole| > 0 && AllDigits(whole) && |frac| > 0 && AllDigits(frac) then
        DigitsValueAppend(whole, frac);
        ScaleDown(DigitsValue(whole), DigitsValue(frac), Pow10(|frac|));
        Some(DigitsValue(whole) as real + DigitsValue(frac) as real / Pow10(|frac|) as real)
      else None
  }

  /** When `k` is the first dot, `s` is a decimal exactly when `k` splits it into two
      digit strings, and then no other dot exists. */
  lemma OnlyDot(s: string, k: nat)
    requires FindDot(s) == Some(k)
    ensures DecimalText(s) <==> DecimalParts(s, k)
    ensures DecimalParts(s, k) ==> forall j :: 0 <= j < |s| && s[j] == '.' ==> j == k
  {
    assert !IsDigit(s[k]);
    if DecimalText(s) {
      var j :| 0 <= j < |s| && s[j] == '.' && DecimalParts(s, j);
      DotPosition(s, k, j);
    }
    if DecimalParts(s, k) {
      forall j | 0 <= j < |s| && s[j] == '.'
        ensures j == k
      {
        DotPosition(s, k, j);
      }
    }
  }

  /** A dot that splits `s` into digit strings, or that follows the digits after the
      first dot, is the first dot. */
  lemma DotPosition(s: string, k: nat, j: nat)
    requires FindDot(s) == Some(k) && j < |s| && s[j] == '.'
    requires DecimalParts(s, j) || DecimalParts(s, k)
    ensures j == k
  {
  }

  lemma {:induction false} DigitsValueBound(s: string)
    requires AllDigits(s)
    ensures DigitsValue(s) < Pow10(|s|)
    decreases |s|
  {
    if |s| > 0 {
      DigitsValueBound(s[..|s| - 1]);
    }
  }

  /** Reading a concatenation: the left part is shifted by the length of the right part. */
  lemma {:induction false} DigitsValueAppend(a: string, b: string)
    requires AllDigits(a) && AllDigits(b)
    ensures AllDigits(a + b)
    ensures DigitsValue(a + b) == DigitsValue(a) * Pow10(|b|) + DigitsValue(b)
    decreases |b|
  {
    var ab := a + b;
    if |b| == 0 {
      assert ab == a;
    } else {
      var b' := b[..|b| - 1];
      assert ab[..|ab| - 1] == a + b';
      DigitsValueAppend(a, b');
    }
  }

  /** Leading zeros do not change the value: `int("036") == 36`. */
  lemma LeadingZero(s: string)
    requires |s| > 0 && AllDigits(s)
    ensures ParseInt("0" + s) == ParseInt(s)
  {
    DigitsValueAppend("0", s);
  }

  /** Parsing inverts rendering. */
  lemma {:induction false} ParseIntDigits(n: nat)
    ensures ParseInt(Digits(n)) == Some(n)
    decreases n
  {
    var s := Digits(n);
    if n < 10 {
      assert s[..|s| - 1] == [];
    } else {
      ParseIntDigits(n / 10);
      assert s[..|s| - 1] == Digits(n / 10);
      assert DigitsValue(s) == (n / 10) * 10 + n % 10;
    }
  }

  /** Rendering inverts parsing on canonical digit strings. */
  lemma {:induction false} DigitsParseInt(s: string)
    requires |s| > 0 && AllDigits(s)
    requires |s| > 1 ==> s[0] != '0'
    ensures Digits(DigitsValue(s)) == s
    decreases |s|
  {
    if |s| == 1 {
      assert s[..0] == [];
    } else {
      var p := s[..|s| - 1];
      DigitsParseInt(p);
      assert p[0] == s[0];
      LeadingNonZeroPositive(p);
      assert DigitsValue(s) / 10 == DigitsValue(p);
      assert DigitsValue(s) % 10 == DigitValue(s[|s| - 1]);
    }
  }

  lemma {:induction false} LeadingNonZeroPositive(s: string)
    requires |s| > 0 && AllDigits(s) && s[0] != '0'
    ensures DigitsValue(s) > 0
    decreases |s|
  {
    if |s| == 1 {
      assert s[..0] == [];
    } else {
      var p := s[..|s| - 1];
      assert p[0] == s[0];
      LeadingNonZeroPositive(p);
    }
  }

  /** A decimal `w.f` is the digit string `wf` read as an integer and scaled down by
      one power of ten per fractional digit; a plain digit string is its integer value. */
  lemma DecimalIsScaledInteger(w: string, f: string)
    requires |w| > 0 && AllDigits(w) && |f| > 0 && AllDigits(f)
    ensures AllDigits(w + f)
    ensures ParseDecimal(w + "." + f) == Some(DigitsValue(w + f) as real / Pow10(|f|) as real)
    ensures ParseDecimal(w) == Some(DigitsValue(w) as real)
  {
    var s := w + "." + f;
    assert forall i :: 0 <= i < |w| ==> w[i] != '.';
    assert s[..|w|] == w && s[|w| + 1..] == f;
    assert s[|w|] == '.' && DecimalParts(s, |w|);
    assert |s| - |w| - 1 == |f|;
  }

  lemma ScaleDown(w: nat, f: nat, p: nat)
    requires p > 0
    ensures (w * p + f) as real / p as real == w as real + f as real / p as real
  {
  }
}

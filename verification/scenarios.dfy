/** Worked examples on concrete feed text. The concrete inputs are passed as
    parameters pinned by `requires`. */
module Scenarios {
  import opened Results
  import opened Text
  import Numbers
  import opened Feed
  import opened CentralBank

  /** Reading one more digit shifts the value by one place. */
  lemma DigitsSnoc(s: string, c: char)
    requires Numbers.AllDigits(s) && Numbers.IsDigit(c)
    ensures Numbers.AllDigits(s + [c])
    ensures Numbers.DigitsValue(s + [c]) == Numbers.DigitsValue(s) * 10 + Numbers.DigitValue(c)
  {
  }

  lemma DigitsOf123456(s: string)
    requires s == "123456"
    ensures Numbers.AllDigits(s) && Numbers.DigitsValue(s) == 123456
  {
    DigitsSnoc([], '1');
    assert [] + ['1'] == s[..1];
    DigitsSnoc(s[..1], '2');
    assert s[..1] + ['2'] == s[..2];
    DigitsSnoc(s[..2], '3');
    assert s[..2] + ['3'] == s[..3];
    DigitsSnoc(s[..3], '4');
    assert s[..3] + ['4'] == s[..4];
    DigitsSnoc(s[..4], '5');
    assert s[..4] + ['5'] == s[..5];
    DigitsSnoc(s[..5], '6');
    assert s[..5] + ['6'] == s;
  }

  /** A three-digit string is read as hundreds, tens and units. */
  lemma ThreeDigits(s: string)
    requires |s| == 3 && Numbers.AllDigits(s)
    ensures Numbers.DigitsValue(s) ==
              100 * Numbers.DigitValue(s[0]) + 10 * Numbers.DigitValue(s[1]) + Numbers.DigitValue(s[2])
  {
    DigitsSnoc([], s[0]);
    assert [] + [s[0]] == s[..1];
    DigitsSnoc(s[..1], s[1]);
    assert s[..1] + [s[1]] == s[..2];
    DigitsSnoc(s[..2], s[2]);
    assert s[..2] + [s[2]] == s;
  }

  /** The feed's comma decimal "12,3456" reads as 12.3456. */
  lemma CommaValueParses(w: string, f: string)
    requires w == "12" && f == "3456"
    ensures Numbers.ParseDecimal(NormaliseDecimal(w + "," + f)) == Some(12.3456)
  {
    CommaDecimal(w, f);
    DigitsOf123456(w + f);
    assert |f| == 4;
    assert Numbers.Pow10(4) == 10000;
  }

  /** `int("036")` is 36: the leading zero of a numeric code is dropped. */
  lemma NumericCodeWithLeadingZero(s: string)
    requires s == "036"
    ensures Numbers.ParseInt(s) == Some(36)
  {
    ThreeDigits(s);
  }

  /** The feed's US dollar entry. */
  predicate IsUsdElement(e: Element) {
    && NumCodeField in e.fields && e.fields[NumCodeField] == "840"
    && CharCodeField in e.fields && e.fields[CharCodeField] == "USD"
    && NominalField in e.fields && e.fields[NominalField] == "1"
    && NameField in e.fields && e.fields[NameField] == "US Dollar"
    && ValueField in e.fields && e.fields[ValueField] == "90,5"
  }

  lemma UsdFields(e: Element)
    requires IsUsdElement(e)
    ensures IntField(e, NumCodeField) == Success(840)
    ensures IntField(e, NominalField) == Success(1)
    ensures RateField(e) == Success(90.5)
  {
    ThreeDigits(e.fields[NumCodeField]);
    assert e.fields[NominalField] == [] + ['1'];
    DigitsSnoc([], '1');
    assert e.fields[ValueField] == "90" + "," + "5";
    CommaDecimal("90", "5");
    ThreeDigits("90" + "5");
    assert Numbers.Pow10(1) == 10;
  }

  lemma UsdRecord(e: Element, code: string)
    requires IsUsdElement(e)
    ensures BuildHit(e, code) == Success(Currency(840, code, 1, "US Dollar", 90.5))
  {
    UsdFields(e);
  }

  /** A 200 feed holding only the US dollar entry. */
  predicate IsUsdFeed(feed: Response) {
    feed.httpCode == 200 && |feed.content| == 1 && IsUsdElement(feed.content[0])
  }

  /** Any non-rouble spelling of USD finds the entry and keeps the caller's spelling. */
  lemma UsdFound(feed: Response, code: string)
    requires IsUsdFeed(feed) && !IsRouble(code) && SameIgnoringCase("USD", code)
    ensures Lookup(feed, code) == Success(Some(Currency(840, code, 1, "US Dollar", 90.5)))
  {
    UsdRecord(feed.content[0], code);
  }

  /** A non-rouble code that is no spelling of USD misses. */
  lemma UsdMissed(feed: Response, code: string)
    requires IsUsdFeed(feed) && !IsRouble(code) && !SameIgnoringCase("USD", code)
    ensures Lookup(feed, code) == Success(None)
  {
    assert feed.content[1..] == [];
    assert Search(feed.content, code) == Search(feed.content[1..], code);
  }

  /** A lowercase query finds the upper-case feed entry and keeps the caller's spelling;
      an absent code misses; USD converts into roubles at its quoted rate. */
  lemma UsdScenario(feed: Response, lower: string, upper: string, absent: string, rouble: string)
    requires IsUsdFeed(feed)
    requires lower == "usd" && upper == "USD" && absent == "ZZZ" && rouble == "RUB"
    ensures Lookup(feed, lower) == Success(Some(Currency(840, lower, 1, "US Dollar", 90.5)))
    ensures Lookup(feed, absent) == Success(None)
    ensures ConvertibleFrom(feed, upper) && ConvertibleTo(feed, rouble)
    ensures Convert(feed, feed, upper, rouble) == Success(90.5)
  {
    assert Lower(upper) == lower && Lower(lower) == lower;
    assert Lower(absent)[0] == 'z' && lower[0] == 'u';
    LowerIsRub(lower);
    LowerIsRub(upper);
    LowerIsRub(absent);
    LowerIsRub(rouble);
    UsdFound(feed, lower);
    UsdFound(feed, upper);
    UsdMissed(feed, absent);
  }
}

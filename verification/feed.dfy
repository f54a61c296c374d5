/** The data the rate lookup works on: the fetch result, the already-parsed feed
    document, the currency record, and the construction of one record from one
    feed element. */
module Feed {
  import opened Results
  import Text
  import Numbers

  /** The HTTP status the lookup accepts as success. */
  const StatusOk: int := 200

  const NumCodeField: string := "NumCode"
  const CharCodeField: string := "CharCode"
  const NominalField: string := "Nominal"
  const NameField: string := "Name"
  const ValueField: string := "Value"

  /** What the Python code raises: the generic exception on a non-200 status, the
      attribute error of a missing sub-element, and the value error of `int()` or
      `float()` on text that is not a number. */
  datatype Error =
    | StatusError(httpCode: int)
    | MissingField(field: string)
    | BadNumber(field: string, text: string)

  /** One child of the feed's root: sub-element name to its text. Extra sub-elements
      are carried along and never read. */
  datatype Element = Element(fields: map<string, string>) {

    /** `element.find(name).text`; a missing sub-element makes the access fail. */
    function Find(name: string): (r: Result<string, Error>)
      ensures r.Success? <==> name in fields
      ensures r.Success? ==> r.value == fields[name]
      ensures r.Failure? ==> r.error == MissingField(name)
    {
      if name in fields then Success(fields[name]) else Failure(MissingField(name))
    }
  }

  /** The root's children in document order. */
  type Document = seq<Element>

  /** The fetch result: the status code and the (parsed) body. */
  datatype Response = Response(httpCode: int, content: Document)

  datatype Currency = Currency(numCode: int, charCode: string, nominal: int, name: string, value: real)

  /** The locale decimal of the feed uses a comma; only the first one becomes a dot. */
  function NormaliseDecimal(text: string): string {
    Text.ReplaceFirst(text, ',', '.')
  }

  /** `int(element.find(name).text)`. */
  function IntField(e: Element, name: string): (r: Result<int, Error>)
    ensures r.Success? <==> name in e.fields && Numbers.ParseInt(e.fields[name]).Some?
    ensures r.Success? ==> Numbers.ParseInt(e.fields[name]) == Some(r.value)
    ensures r.Failure? && name !in e.fields ==> r.error == MissingField(name)
    ensures r.Failure? && name in e.fields ==> r.error == BadNumber(name, e.fields[name])
  {
    var text :- e.Find(name);
    match Numbers.ParseInt(text)
    case Some(n) => Success(n)
    case None => Failure(BadNumber(name, text))
  }

  /** `float(element.find('Value').text.replace(',', '.', 1))`: succeeds exactly when the
      text, with its first comma turned into a dot, is `digits` or `digits.digits`. */
  function RateField(e: Element): (r: Result<real, Error>)
    ensures r.Success? <==>
              ValueField in e.fields && Numbers.DecimalText(NormaliseDecimal(e.fields[ValueField]))
    ensures r.Failure? && ValueField !in e.fields ==> r.error == MissingField(ValueField)
    ensures r.Failure? && ValueField in e.fields ==> r.error == BadNumber(ValueField, e.fields[ValueField])
    ensures r.Success? ==> Numbers.ParseDecimal(NormaliseDecimal(e.fields[ValueField])) == Some(r.value)
  {
    var text :- e.Find(ValueField);
    match Numbers.ParseDecimal(NormaliseDecimal(text))
    case Some(v) => Success(v)
    case None => Failure(BadNumber(ValueField, text))
  }

  /** The record a lookup hit builds: the caller's spelling of the code, every other
      field read from the element, in the order the keyword arguments are evaluated. */
  function BuildHit(e: Element, code: string): (r: Result<Currency, Error>)
    ensures r.Success? <==> WellFormed(e)
    ensures r.Success? ==> r.value.charCode == code && FromElement(r.value, e)
  {
    var num :- IntField(e, NumCodeField);
    var nominal :- IntField(e, NominalField);
    var name :- e.Find(NameField);
    var value :- RateField(e);
    Success(Currency(num, code, nominal, name, value))
  }

  /** The record the full listing builds: the feed's own code, read after `NumCode`. */
  function BuildListed(e: Element): (r: Result<Currency, Error>)
    ensures r.Success? <==> WellFormed(e) && CharCodeField in e.fields
    ensures r.Success? ==> r.value.charCode == e.fields[CharCodeField] && FromElement(r.value, e)
  {
    var num :- IntField(e, NumCodeField);
    var code :- e.Find(CharCodeField);
    var nominal :- IntField(e, NominalField);
    var name :- e.Find(NameField);
    var value :- RateField(e);
    Success(Currency(num, code, nominal, name, value))
  }

  /** Every field a record needs, other than the code, is present and readable. */
  predicate WellFormed(e: Element) {
    && IntField(e, NumCodeField).Success?
    && IntField(e, NominalField).Success?
    && NameField in e.fields
    && RateField(e).Success?
  }

  /** `c`'s numeric code, nominal, name and value are the ones written in `e`. */
  predicate FromElement(c: Currency, e: Element) {
    && NumCodeField in e.fields && Numbers.ParseInt(e.fields[NumCodeField]) == Some(c.numCode)
    && NominalField in e.fields && Numbers.ParseInt(e.fields[NominalField]) == Some(c.nominal)
    && NameField in e.fields && e.fields[NameField] == c.name
    && ValueField in e.fields && Numbers.ParseDecimal(NormaliseDecimal(e.fields[ValueField])) == Some(c.value)
  }

  /** A lookup hit and a listed record built from the same element differ in the code
      only, and fail alike when the element holds a code. */
  lemma HitIsRespelledListing(e: Element, code: string)
    requires CharCodeField in e.fields
    ensures BuildHit(e, code).Success? <==> BuildListed(e).Success?
    ensures BuildHit(e, code).Success? ==>
              BuildHit(e, code).value == BuildListed(e).value.(charCode := code)
    ensures BuildHit(e, code).Failure? ==> BuildHit(e, code).error == BuildListed(e).error
  {
  }

  /** The comma rewrite turns the feed's locale decimal into Python's: a value with a
      comma reads as the same digits with a dot. */
  lemma CommaDecimal(w: string, f: string)
    requires |w| > 0 && Numbers.AllDigits(w) && |f| > 0 && Numbers.AllDigits(f)
    ensures NormaliseDecimal(w + "," + f) == w + "." + f
    ensures Numbers.AllDigits(w + f)
    ensures Numbers.ParseDecimal(NormaliseDecimal(w + "," + f))
              == Some(Numbers.DigitsValue(w + f) as real / Numbers.Pow10(|f|) as real)
  {
    var s := w + "," + f;
    assert forall j :: 0 <= j < |s| && j != |w| ==> s[j] != ',' by {
      assert forall j :: 0 <= j < |w| ==> s[j] == w[j];
      assert forall j :: |w| < j < |s| ==> s[j] == f[j - |w| - 1];
    }
    Text.ReplaceFirstSole(s, |w|, ',', '.');
    assert s[..|w|] + ['.'] + s[|w| + 1..] == w + "." + f;
    Numbers.DecimalIsScaledInteger(w, f);
  }
}

/** The rate-lookup operations of the central bank client: the point lookup of one
    currency, the full listing, and the cross rate of two currencies. The fetch is
    not performed here: each operation receives the response it would have fetched. */
module CentralBank {
  import opened Results
  import opened Text
  import opened Feed

  /** The rouble is not in the feed; a lookup of it answers this record. */
  function Rouble(): Currency {
    Currency(0, "RUB", 1, "Russian ruble", 1.0)
  }

  predicate IsRouble(code: string) {
    Lower(code) == "rub"
  }

  /** `e`'s code equals `code` ignoring case. */
  predicate Matches(e: Element, code: string) {
    CharCodeField in e.fields && SameIgnoringCase(e.fields[CharCodeField], code)
  }

  /** The scan passes over `e` without stopping: it has a code, and not this one. */
  predicate Passes(e: Element, code: string) {
    CharCodeField in e.fields && !Matches(e, code)
  }

  /** The scan has passed over the first `i` elements. */
  predicate ScannedPast(doc: Document, i: int, code: string)
    requires 0 <= i <= |doc|
  {
    forall j :: 0 <= j < i ==> Passes(doc[j], code)
  }

  function AsHit(r: Result<Currency, Error>): Result<Option<Currency>, Error> {
    match r
    case Success(c) => Success(Some(c))
    case Failure(e) => Failure(e)
  }

  /** The loop over the root's children: the first element whose code matches
      (ignoring case) decides the answer, built with the caller's spelling; running
      off the end answers `None`. `SearchFirstMatch` characterises it fully. */
  function Search(doc: Document, code: string): (r: Result<Option<Currency>, Error>)
    ensures r.Success? && r.value.Some? ==> r.value.value.charCode == code
    decreases |doc|
  {
    if |doc| == 0 then Success(None)
    else
      var found :- doc[0].Find(CharCodeField);
      if SameIgnoringCase(found, code) then AsHit(BuildHit(doc[0], code))
      else Search(doc[1..], code)
  }

  /** The search answers `None` exactly when every element has a code and none
      matches; otherwise the first element that has no code or that matches decides:
      the former fails, the latter answers the record built from it. */
  lemma {:induction false} SearchFirstMatch(doc: Document, code: string)
    ensures Search(doc, code) == Success(None) <==> ScannedPast(doc, |doc|, code)
    ensures forall i :: 0 <= i < |doc| && ScannedPast(doc, i, code) && Matches(doc[i], code) ==>
              Search(doc, code) == AsHit(BuildHit(doc[i], code))
    ensures forall i :: 0 <= i < |doc| && ScannedPast(doc, i, code) && CharCodeField !in doc[i].fields ==>
              Search(doc, code) == Failure(MissingField(CharCodeField))
    ensures Search(doc, code).Success? && Search(doc, code).value.Some? ==>
              exists i :: 0 <= i < |doc| && ScannedPast(doc, i, code) && Matches(doc[i], code)
    decreases |doc|
  {
    if |doc| > 0 && !Matches(doc[0], code) && CharCodeField in doc[0].fields {
      SearchFirstMatch(doc[1..], code);
      assert forall i :: 0 < i <= |doc| ==>
               (ScannedPast(doc, i, code) <==> ScannedPast(doc[1..], i - 1, code));
    }
  }

  /** `get_currency_info`: the rouble short-circuits before anything is fetched; a
      non-200 status fails; otherwise the document is searched. */
  function Lookup(response: Response, code: string): (r: Result<Option<Currency>, Error>)
    ensures !IsRouble(code) && r.Success? && r.value.Some? ==>
              response.httpCode == StatusOk && r.value.value.charCode == code
  {
    if IsRouble(code) then Success(Some(Rouble()))
    else if response.httpCode != StatusOk then Failure(StatusError(response.httpCode))
    else Search(response.content, code)
  }

  /** A hit on a non-rouble code comes from an element of the feed whose code matches
      the query ignoring case: its numeric code, nominal, name and value are that
      element's, and its code is the caller's spelling. */
  lemma LookupHitFromFeed(response: Response, code: string)
    requires !IsRouble(code) && Lookup(response, code).Success? && Lookup(response, code).value.Some?
    ensures Lookup(response, code).value.value.charCode == code
    ensures exists i :: 0 <= i < |response.content| &&
              Matches(response.content[i], code) &&
              FromElement(Lookup(response, code).value.value, response.content[i])
  {
    var doc := response.content;
    SearchFirstMatch(doc, code);
    var i :| 0 <= i < |doc| && ScannedPast(doc, i, code) && Matches(doc[i], code);
    assert Lookup(response, code) == AsHit(BuildHit(doc[i], code));
  }

  /** The loop of the full listing: one record per element, in order; the first
      element that cannot be built fails the whole listing. */
  function ListElements(doc: Document): (r: Result<seq<Currency>, Error>)
    ensures r.Success? <==> forall i :: 0 <= i < |doc| ==> BuildListed(doc[i]).Success?
    ensures r.Success? ==> |r.value| == |doc|
    ensures r.Success? ==> forall i :: 0 <= i < |doc| ==> r.value[i] == BuildListed(doc[i]).value
    ensures r.Failure? ==>
              exists i :: 0 <= i < |doc| && BuildListed(doc[i]) == Failure(r.error) && AllBuild(doc, i)
    decreases |doc|
  {
    if |doc| == 0 then Success([])
    else
      var first :- BuildListed(doc[0]);
      var rest :- ListElements(doc[1..]);
      Success([first] + rest)
  }

  /** The first `i` elements all build a listed record. */
  predicate AllBuild(doc: Document, i: int)
    requires 0 <= i <= |doc|
  {
    forall j :: 0 <= j < i ==> BuildListed(doc[j]).Success?
  }

  /** `get_information_about_all_currencies`. */
  function ListAll(response: Response): (r: Result<seq<Currency>, Error>)
    ensures r.Success? ==> response.httpCode == StatusOk && |r.value| == |response.content|
    ensures r.Success? ==> forall i :: 0 <= i < |r.value| ==>
              CharCodeField in response.content[i].fields &&
              r.value[i].charCode == response.content[i].fields[CharCodeField] &&
              FromElement(r.value[i], response.content[i])
  {
    if response.httpCode != StatusOk then Failure(StatusError(response.httpCode))
    else ListElements(response.content)
  }

  /** Roubles per one unit of the currency. */
  function RoubleRate(c: Currency): real
    requires c.nominal != 0
  {
    c.value / c.nominal as real
  }

  /** The record a lookup answers, when it answers one. */
  function Resolve(response: Response, code: string): Option<Currency> {
    match Lookup(response, code)
    case Success(Some(c)) => Some(c)
    case _ => None
  }

  predicate Found(response: Response, code: string) {
    Resolve(response, code).Some?
  }

  function Hit(response: Response, code: string): Currency
    requires Found(response, code)
  {
    Resolve(response, code).value
  }

  /** The dividend of the cross rate: found, with a non-zero nominal. */
  predicate ConvertibleFrom(response: Response, code: string) {
    Found(response, code) && Hit(response, code).nominal != 0
  }

  /** The divisor of the cross rate: found, with a non-zero nominal and value. */
  predicate ConvertibleTo(response: Response, code: string) {
    ConvertibleFrom(response, code) && Hit(response, code).value != 0.0
  }

  /** How many units of `target` one unit of `source` is worth. */
  function CrossRate(source: Currency, target: Currency): (r: real)
    requires source.nominal != 0 && target.nominal != 0 && target.value != 0.0
    ensures r * RoubleRate(target) == RoubleRate(source)
  {
    var fromRatio := source.value / source.nominal as real;
    var toRatio := target.value / target.nominal as real;
    assert toRatio != 0.0;
    fromRatio / toRatio
  }

  /** `convert_currencies`: both lookups run, each on the response it fetches; the
      first lookup that raises makes the conversion raise the same error; otherwise
      the result is the cross rate of the two records. A missing record or a zero
      divisor once both lookups succeed is excluded by the precondition. */
  function Convert(fromFeed: Response, toFeed: Response, from: string, to: string): (r: Result<real, Error>)
    requires Lookup(fromFeed, from).Success? && Lookup(toFeed, to).Success? ==>
               ConvertibleFrom(fromFeed, from) && ConvertibleTo(toFeed, to)
    ensures Lookup(fromFeed, from).Failure? ==> r == Failure(Lookup(fromFeed, from).error)
    ensures Lookup(fromFeed, from).Success? && Lookup(toFeed, to).Failure? ==>
              r == Failure(Lookup(toFeed, to).error)
    ensures r.Success? <==> Lookup(fromFeed, from).Success? && Lookup(toFeed, to).Success?
    ensures r.Success? ==> r.value * RoubleRate(Hit(toFeed, to)) == RoubleRate(Hit(fromFeed, from))
  {
    match Lookup(fromFeed, from)
    case Failure(e) => Failure(e)
    case Success(_) =>
      match Lookup(toFeed, to)
      case Failure(e) => Failure(e)
      case Success(_) => Success(CrossRate(Hit(fromFeed, from), Hit(toFeed, to)))
  }
}

/** Properties relating the lookup, the listing and the cross rate to each other and
    to the feed they read. */
module RateLaws {
  import opened Results
  import opened Text
  import opened Feed
  import opened CentralBank

  /** The answer for another spelling of the same code: a hit carries the new
      spelling, everything else is unchanged. */
  function Respell(r: Result<Option<Currency>, Error>, code: string): Result<Option<Currency>, Error> {
    if r.Success? && r.value.Some? then Success(Some(r.value.value.(charCode := code))) else r
  }

  /** A rouble query answers the identity record whatever was (or would have been)
      fetched: neither the status nor the content is consulted. */
  lemma RoubleIgnoresFeed(first: Response, second: Response, code: string)
    requires IsRouble(code)
    ensures Lookup(first, code) == Lookup(second, code) == Success(Some(Currency(0, "RUB", 1, "Russian ruble", 1.0)))
    ensures RoubleRate(Hit(first, code)) == 1.0
  {
  }

  /** A non-200 status yields a failure carrying that status, and no record or list,
      for both the lookup of any non-rouble code and the full listing. */
  lemma FailedFetchYieldsNothing(response: Response, code: string)
    requires response.httpCode != 200
    ensures ListAll(response) == Failure(StatusError(response.httpCode))
    ensures !IsRouble(code) ==> Lookup(response, code) == Failure(StatusError(response.httpCode))
    ensures !IsRouble(code) ==> !Found(response, code)
  {
  }

  lemma {:induction false} SearchIgnoresCase(doc: Document, a: string, b: string)
    requires SameIgnoringCase(a, b)
    ensures Search(doc, b) == Respell(Search(doc, a), b)
    decreases |doc|
  {
    if |doc| > 0 && CharCodeField in doc[0].fields && !SameIgnoringCase(doc[0].fields[CharCodeField], a) {
      SearchIgnoresCase(doc[1..], a, b);
    }
  }

  /** Queries that differ only in letter case find the same element: the answers are
      equal except that a hit carries each caller's own spelling (the rouble record is
      the same for every spelling). */
  lemma LookupIgnoresCase(response: Response, a: string, b: string)
    requires SameIgnoringCase(a, b)
    ensures IsRouble(a) ==> Lookup(response, b) == Lookup(response, a)
    ensures !IsRouble(a) ==> Lookup(response, b) == Respell(Lookup(response, a), b)
    ensures Found(response, a) <==> Found(response, b)
  {
    if !IsRouble(a) && response.httpCode == StatusOk {
      SearchIgnoresCase(response.content, a, b);
    }
  }

  /** A non-rouble lookup misses exactly when the fetch succeeded and every element
      carries a code, none of them equal to the query ignoring case. */
  lemma LookupMissesIff(response: Response, code: string)
    requires !IsRouble(code)
    ensures Lookup(response, code) == Success(None) <==>
              response.httpCode == 200 &&
              forall i :: 0 <= i < |response.content| ==>
                CharCodeField in response.content[i].fields &&
                !SameIgnoringCase(response.content[i].fields[CharCodeField], code)
  {
    SearchFirstMatch(response.content, code);
    if response.httpCode == 200 {
      assert ScannedPast(response.content, |response.content|, code) <==>
             forall i :: 0 <= i < |response.content| ==>
               CharCodeField in response.content[i].fields &&
               !SameIgnoringCase(response.content[i].fields[CharCodeField], code);
    }
  }

  /** `i` is the first position of `list` whose code equals `code` ignoring case. */
  predicate FirstListedMatch(list: seq<Currency>, i: int, code: string) {
    && 0 <= i < |list|
    && SameIgnoringCase(list[i].charCode, code)
    && forall j :: 0 <= j < i ==> !SameIgnoringCase(list[j].charCode, code)
  }

  /** A successful listing of a non-empty document is the first record followed by
      the successful listing of the rest. */
  lemma ListElementsCons(doc: Document)
    requires |doc| > 0 && ListElements(doc).Success?
    ensures BuildListed(doc[0]).Success? && ListElements(doc[1..]).Success?
    ensures ListElements(doc).value == [BuildListed(doc[0]).value] + ListElements(doc[1..]).value
  {
  }

  lemma {:induction false} SearchAgreesWithListing(doc: Document, code: string)
    requires ListElements(doc).Success?
    ensures Search(doc, code).Success?
    ensures Search(doc, code).value.None? <==>
              forall i :: 0 <= i < |doc| ==> !SameIgnoringCase(ListElements(doc).value[i].charCode, code)
    ensures forall i :: FirstListedMatch(ListElements(doc).value, i, code) ==>
              Search(doc, code) == Success(Some(ListElements(doc).value[i].(charCode := code)))
    decreases |doc|
  {
    if |doc| > 0 {
      ListElementsCons(doc);
      var list, rest := ListElements(doc).value, doc[1..];
      var tail := ListElements(rest).value;
      HitIsRespelledListing(doc[0], code);
      if !SameIgnoringCase(list[0].charCode, code) {
        SearchAgreesWithListing(rest, code);
        assert Search(doc, code) == Search(rest, code);
        forall i | FirstListedMatch(list, i, code)
          ensures FirstListedMatch(tail, i - 1, code)
        {
        }
      }
    }
  }

  /** The point lookup and the full listing read the same feed the same way: when the
      listing succeeds, a non-rouble lookup succeeds too, misses exactly when no listed
      record has the queried code (ignoring case), and otherwise answers the first
      such listed record, respelled with the caller's code. */
  lemma LookupAgreesWithListing(response: Response, code: string)
    requires !IsRouble(code) && ListAll(response).Success?
    ensures Lookup(response, code).Success?
    ensures Lookup(response, code).value.None? <==>
              forall i :: 0 <= i < |ListAll(response).value| ==>
                !SameIgnoringCase(ListAll(response).value[i].charCode, code)
    ensures forall i :: FirstListedMatch(ListAll(response).value, i, code) ==>
              Lookup(response, code) == Success(Some(ListAll(response).value[i].(charCode := code)))
  {
    SearchAgreesWithListing(response.content, code);
  }

  /** A currency converts to itself at rate one. */
  lemma ConvertSelf(response: Response, code: string)
    requires ConvertibleTo(response, code)
    ensures Convert(response, response, code, code) == Success(1.0)
  {
    var r := Convert(response, response, code, code);
    var rate := RoubleRate(Hit(response, code));
    assert rate != 0.0 && r.value * rate == rate;
    assert r.value == rate / rate;
  }

  /** Converting there and back multiplies to one. */
  lemma ConvertRoundTrip(response: Response, a: string, b: string)
    requires ConvertibleTo(response, a) && ConvertibleTo(response, b)
    ensures Convert(response, response, a, b).Success? && Convert(response, response, b, a).Success?
    ensures Convert(response, response, a, b).value * Convert(response, response, b, a).value == 1.0
  {
  }

  /** Converting into roubles gives the per-unit rouble rate, whatever the second
      response (the rouble lookup never fetches). */
  lemma ConvertToRouble(fromFeed: Response, toFeed: Response, code: string, rouble: string)
    requires ConvertibleFrom(fromFeed, code) && IsRouble(rouble)
    ensures ConvertibleTo(toFeed, rouble)
    ensures Convert(fromFeed, toFeed, code, rouble) ==
              Success(Hit(fromFeed, code).value / Hit(fromFeed, code).nominal as real)
  {
  }

  /** Converting through an intermediate currency gives the direct cross rate. */
  lemma ConvertChain(response: Response, a: string, b: string, c: string)
    requires ConvertibleFrom(response, a) && ConvertibleTo(response, b) && ConvertibleTo(response, c)
    ensures Convert(response, response, a, b).Success? && Convert(response, response, b, c).Success?
    ensures Convert(response, response, a, c).Success?
    ensures Convert(response, response, a, b).value * Convert(response, response, b, c).value ==
              Convert(response, response, a, c).value
  {
  }

  /** A failed lookup of either currency makes the conversion fail with that lookup's
      error, the source's first. */
  lemma ConvertPropagatesLookupFailure(fromFeed: Response, toFeed: Response, from: string, to: string)
    requires Lookup(fromFeed, from).Failure? || Lookup(toFeed, to).Failure?
    ensures Convert(fromFeed, toFeed, from, to).Failure?
    ensures Convert(fromFeed, toFeed, from, to).error ==
              if Lookup(fromFeed, from).Failure? then Lookup(fromFeed, from).error else Lookup(toFeed, to).error
  {
  }
}

# Central bank rate lookup — a Dafny model

This project models the rate-lookup core of `application/cb_parser.py`, the client
that reads the Russian central bank's daily exchange-rate feed (`XML_daily.asp`) and
answers three questions about it:

- `get_currency_info(code)` — the point lookup of one currency. A `rub` query in any
  letter case answers a fixed record without fetching anything. A non-200 status
  raises. Otherwise the root's children are scanned in order, and the first whose
  `CharCode` equals the query, ignoring case, gives the record. Running off the end
  answers `None`.
- `get_information_about_all_currencies()` — the full listing: one record per child,
  in document order.
- `convert_currencies(from, to)` — the cross rate
  `(from.value / from.nominal) / (to.value / to.nominal)`.

The HTTP fetch and the XML tree parse are inputs here. Each operation receives a
`Response(httpCode, content)` in place of the dict the fetch builds. Its `content`
is the already-parsed document: a sequence of `Element`s, each a map from sub-element
name (`NumCode`, `CharCode`, `Nominal`, `Name`, `Value`) to its text.

Modules:

- `Results` (`results.dfy`) — `Option` and `Result`. They take the place of Python's
  `None` and raised exceptions.
- `Text` (`text.dfy`) — ASCII lower-casing of codes, and `str.replace(a, b, 1)` as
  `ReplaceFirst`.
- `Numbers` (`numbers.dfy`) — `int()` on digit strings and `float()` on
  `digits[.digits]`, as exact naturals and rationals, with their rendering partner.
- `Feed` (`feed.dfy`) — `Response`, `Element`, `Currency`, the `Error` kinds, and how
  one record is built from one element. The lookup and the listing build records
  slightly differently; see below.
- `CentralBank` (`central_bank.dfy`) — `Lookup`, `ListAll`, `Convert` and the scan
  behind the lookup.
- `RateLaws` (`rate_laws.dfy`) — laws relating the operations to each other and to
  the feed.
- `Scenarios` (`scenarios.dfy`) — worked examples on concrete feed text.

How the model follows the code:

- **Errors.** Python raises; the model returns a `Failure`. There are three kinds:
  - `StatusError` for the bare `Exception` on a non-200 status;
  - `MissingField` for the `AttributeError` when `find(...)` returns `None`;
  - `BadNumber` for the `ValueError` from `int()` or `float()`.
- **Order of field reads.** Fields are read in the order Python evaluates them, so
  the first bad field decides the error:
  - the lookup reads `CharCode` in its `if`, then `NumCode`, `Nominal`, `Name` and
    `Value`;
  - the listing reads `NumCode` first, then `CharCode`, `Nominal`, `Name` and `Value`.
- **Two fetches in a conversion.** `convert_currencies` calls `get_currency_info`
  twice, and each call fetches on its own. So `Convert` takes two responses.
- **Errors in a conversion.** When a lookup in `convert_currencies` raises, the
  conversion raises the same error. The source lookup runs first, so its error wins.
  `Convert` returns that `Failure`.
- **Preconditions of `Convert`.** Suppose both lookups succeed. The code then has no
  guard against a missing record or a zero divisor, so these are preconditions:
  - the source currency is found and has a non-zero nominal;
  - the target currency is found and has a non-zero nominal and a non-zero value.
- **Letter case of a hit.** Matching ignores case, but a hit carries the caller's
  spelling in `char_code`. So the answers for `usd` and `USD` differ in that field
  (`RateLaws.LookupIgnoresCase`). The rouble record is the exception: it always says
  `RUB`.
- **Zero rates.** `convert_currencies` divides by the target's `value` without
  checking it. That is why `Convert` requires a non-zero target value once both
  lookups succeed.
- **Nominal.** Nothing checks that `nominal` is positive, so a zero nominal can be
  represented in the model.

## Model

| member | source | states |
|---|---|---|
| Text.Lower | application/cb_parser.py:78 | `.lower()` (also applied to the query at line 60) keeps the length, leaves no upper-case letter, leaves every other character alone, and turns each upper-case letter into its lower-case letter |
| Text.LowerIsRub | application/cb_parser.py:60 | the queries that take the rouble shortcut are exactly the eight letter-case spellings of `rub` |
| Text.ReplaceFirst | application/cb_parser.py:85 | `replace(',', '.', 1)` keeps the length, turns the first comma (and only it) into a dot, and leaves every other character unchanged |
| Text.ReplaceFirstAbsent | application/cb_parser.py:85 | a value without a comma is left unchanged by the normalisation |
| Text.ReplaceFirstSole | application/cb_parser.py:127 | a value with exactly one comma comes out with no comma and a dot in its place |
| Numbers.ParseInt | application/cb_parser.py:79 | `int()` accepts exactly the non-empty digit strings, and the result is below 10 to the power of the length |
| Numbers.ParseIntDigits | application/cb_parser.py:81 | `int()` inverts decimal rendering: every natural number reads back as itself |
| Numbers.DigitsParseInt | application/cb_parser.py:79 | on digit strings without a leading zero, rendering inverts `int()` |
| Numbers.LeadingZero | application/cb_parser.py:79 | a leading zero does not change what `int()` reads, as with zero-padded numeric codes |
| Numbers.ParseDecimal | application/cb_parser.py:85 | `float()` accepts exactly `digits` or `digits.digits` (one dot, digits on both sides); a plain digit string reads as its integer, and `w.f` reads as the digits `wf` as an integer divided by 10 to the power of the length of `f` |
| Numbers.DecimalIsScaledInteger | application/cb_parser.py:85 | `float("w.f")` is the integer `wf` divided by 10 per fractional digit; `float("w")` is the integer `w` |
| Feed.IntField | application/cb_parser.py:81 | `int(e.find(name).text)` succeeds exactly when the field is present and is a digit string; otherwise it fails with the missing-field or bad-number error for that field |
| Feed.RateField | application/cb_parser.py:85 | the `Value` field is read after its first comma becomes a dot, and succeeds exactly when the normalised text is `digits` or `digits.digits`; it then carries the value `float()` reads; a missing field or a bad number fails with that field's error |
| Feed.BuildHit | application/cb_parser.py:79-86 | a lookup hit succeeds exactly when the element's four other fields are well formed; it carries the caller's spelling of the code, and its numeric code, nominal, name and value are the element's |
| Feed.BuildListed | application/cb_parser.py:122-128 | a listed record additionally needs the element's `CharCode` and carries the feed's own spelling of it |
| Feed.HitIsRespelledListing | application/cb_parser.py:122-128 | a hit and a listed record built from the same element agree in everything but the code, and fail with the same error |
| Feed.CommaDecimal | application/cb_parser.py:84-85 | the comma decimal `w,f` normalises to `w.f` and reads as the digits `wf` scaled by the fractional length |
| CentralBank.Search | application/cb_parser.py:75-88 | a hit from the scan carries the caller's spelling of the code |
| CentralBank.SearchFirstMatch | application/cb_parser.py:75-88 | the scan answers `None` exactly when every element has a code and none equals the query ignoring case; otherwise the first element with a matching code gives the hit, and the first element with no code before any match makes the scan fail |
| CentralBank.Lookup | application/cb_parser.py:50-88 | a hit on a non-rouble code comes only from a 200 response and carries the caller's spelling |
| CentralBank.LookupHitFromFeed | application/cb_parser.py:79-86 | a non-rouble hit is built from an element whose code matches the query ignoring case, with that element's numeric code, nominal, name and value |
| CentralBank.ListElements | application/cb_parser.py:121-129 | the listing succeeds exactly when every element builds, and then has one record per element in document order; a failure is the error of the first element that does not build |
| CentralBank.ListAll | application/cb_parser.py:108-131 | a successful listing comes from a 200 response, has one record per element, and each record holds the feed's own code and that element's other fields |
| CentralBank.CrossRate | application/cb_parser.py:101-104 | the cross rate times the target's per-unit rouble rate is the source's per-unit rouble rate |
| CentralBank.Convert | application/cb_parser.py:90-106 | a failing source lookup fails the conversion with its error; a failing target lookup does so when the source lookup succeeds; the conversion succeeds exactly when both lookups do, and then one unit of the source is worth the result in units of the target, measured through the two rouble rates |
| RateLaws.ConvertPropagatesLookupFailure | application/cb_parser.py:98-99 | if either lookup raises, the conversion fails with the error of the first lookup that raised |
| RateLaws.RoubleIgnoresFeed | application/cb_parser.py:60-61 | a rouble query in any letter case answers `Currency(0, 'RUB', 1, 'Russian ruble', 1)` whatever the response, and its rouble rate is 1 |
| RateLaws.FailedFetchYieldsNothing | application/cb_parser.py:68-70 | a non-200 status makes both a non-rouble lookup and the full listing (lines 115-117) fail with that status, and nothing is found |
| RateLaws.SearchIgnoresCase | application/cb_parser.py:78 | scans for two spellings of one code give the same answer up to the spelling carried by a hit |
| RateLaws.LookupIgnoresCase | application/cb_parser.py:78-80 | lookups of two spellings of one code give the same answer, except that a hit carries each caller's spelling; one is found exactly when the other is |
| RateLaws.LookupMissesIff | application/cb_parser.py:75-88 | a non-rouble lookup answers `None` exactly when the status is 200 and every element has a code, none of them equal to the query ignoring case |
| RateLaws.SearchAgreesWithListing | application/cb_parser.py:121-129 | when the listing succeeds, the scan succeeds too; it misses exactly when no listed code matches, and otherwise returns the first matching listed record, respelled |
| RateLaws.LookupAgreesWithListing | application/cb_parser.py:119-131 | when the full listing succeeds, a non-rouble lookup on the same response also succeeds; it misses exactly when no listed record has the code ignoring case, and otherwise answers the first such record with the caller's spelling |
| RateLaws.ConvertSelf | application/cb_parser.py:101-104 | a currency converts to itself at rate 1 |
| RateLaws.ConvertRoundTrip | application/cb_parser.py:101-104 | converting from a to b, then from b to a, multiplies to 1 |
| RateLaws.ConvertToRouble | application/cb_parser.py:98-104 | converting into roubles gives `value / nominal` of the source, whatever the second response |
| RateLaws.ConvertChain | application/cb_parser.py:101-104 | converting a to b and then b to c gives the direct rate from a to c |
| Scenarios.CommaValueParses | application/cb_parser.py:85 | the feed text `12,3456` reads as 12.3456 |
| Scenarios.NumericCodeWithLeadingZero | application/cb_parser.py:79 | the numeric code text `036` reads as 36 |
| Scenarios.UsdRecord | application/cb_parser.py:79-86 | the element `840 / USD / 1 / US Dollar / 90,5` builds the record `(840, code, 1, "US Dollar", 90.5)` for any spelling `code` of the query |
| Scenarios.UsdFound | application/cb_parser.py:75-86 | on a 200 feed holding only USD at 90,5, any non-rouble spelling of `usd` finds the record `(840, code, 1, "US Dollar", 90.5)` with that spelling |
| Scenarios.UsdMissed | application/cb_parser.py:75-88 | on the same feed, a non-rouble code that is no spelling of `usd` answers `None` |
| Scenarios.UsdScenario | application/cb_parser.py:75-106 | on a 200 feed holding only USD at 90,5: `usd` finds it with the spelling `usd`, `ZZZ` misses, and converting USD into RUB gives 90.5 |

## Left out

- HTTP fetch (lines 27-48: the aiohttp session, the URL and `await request.text()`) is
  network I/O. Its result is the `Response` parameter of each operation.
- XML parsing (`ET.fromstring`, lines 72 and 119) is a library call. The document is
  taken as already parsed, so a malformed document's parse error is not modelled.
- Element text that is `None` (an empty sub-element) is not modelled: every present
  field has a string.
- Numbers.ParseInt: accepts only unsigned ASCII digit strings. Python's `int()` also
  accepts surrounding whitespace, a sign, underscores between digits and non-ASCII
  Unicode digits; those texts are rejected here.
- Numbers.ParseDecimal: accepts only `digits` and `digits.digits`. Python's `float()`
  also accepts a sign, whitespace, exponents, `inf`/`nan`, underscores between
  digits, non-ASCII Unicode digits, and the forms `1.` and `.5`; those texts are
  rejected here.
- IEEE double arithmetic is not modelled: values and rates are exact reals. So are
  the `round(..., 3)` and `round(..., 2)` of the web layer.
- Text.Lower: folds ASCII letters only. Python's `str.lower()` is full Unicode. The
  codes compared are ISO 4217 alphabetic codes.
- CentralBank.Convert: suppose both lookups succeed. A missing record (the
  `AttributeError` on `None`) and a division by zero (`ZeroDivisionError`) are then
  preconditions, not error results. The code has no handling for either. A failing
  lookup is not excluded: its error is the result.
- `application/server.py` (route wiring, the global client handle, start/stop
  listeners, `app.run`) is not part of this model. Its only logic is a three-key
  presence check on the convert request plus calls into the core.
- `app/server.py` is not part of this model. It is a superseded draft of the same
  wiring.
- The root-level `cb_parser.py` is not part of this model. It is a broken early
  draft of the client.
- A persistent rate table, upserts and a periodic background refresh do not exist
  in the code, so they are not modelled.

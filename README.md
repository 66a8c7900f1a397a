# Item price-history crawler, modelled in Dafny

This project models the retrieval-and-extraction core of a crawler for an item database of a
virtual-pet game. The crawler class `JellyneoIDBCrawler` fetches an item's price-history page,
retrying transient request failures under a bounded attempt budget. It then reads four things
from the parsed page:

- the item name;
- the item image;
- the price history: one date and one price per well-formed `price-row`, with malformed rows
  silently dropped;
- the inflation notice, if any.

An earlier module-level draft in `src/core.py` makes a single request and runs the same row loop.

The model abstracts the parsed HTML to the lookups the extractors make (`Backend.Page`), and
makes the exceptions explicit as `Result` values over `PyError`. Each regular expression is
given twice:

- as a declarative predicate saying where a match lies;
- as the greedy matcher the functions run, proved to agree with that predicate exactly.

`re.findall(...)[0]` is then the leftmost such match, or IndexError when there is none.

Modules:

- `Results` (`results.dfy`): Option, Result, and the Python exceptions as `PyError`.
- `Text` (`text.dfy`): ASCII digit and letter classes, maximal digit and letter runs, decimal
  value of a digit string, `re.sub(",", "", t)`, and `int()` of a match text.
- `PricePattern` (`price_pattern.dfy`): the pattern `\d{1,3}(?:,\d{3})* (?=NP)`, its leftmost
  match, the raw integer amount and its value in thousands, and comma-grouped numerals.
- `DatePattern` (`date_pattern.dfy`): the patterns `[A-Za-z]+ \d+, \d+` and
  `[A-Za-z]+ \d+, \d{4}` and their leftmost match.
- `Calendar` (`calendar.dfy`): `datetime.strptime(..., "%B %d, %Y")` on the three matched
  pieces, with Gregorian validity of dates.
- `Backend` (`backend.dfy`): the crawler class, covering the extractors, the row loop (a
  method with a `for` loop proved against the accumulation function `Accumulate`), the
  inflation check, and `parse_html_as_soup` under its retry decorator (a method with a `while`
  loop proved against the function `Fetch`).
- `Core` (`core.dfy`): the draft's single-attempt fetch and its copy of the row loop.

Behaviour of the code worth noting:

- `check_if_inflated` returns the notice's date as the matched string, not as a parsed date.
- A row's date text that matches the date pattern but is not a date (for example
  "Smarch 40, 2020") raises ValueError out of `strptime`. The ValueError ends the whole
  extraction; the row is not skipped.
- A row without a `price-date` span raises AttributeError, which also ends the extraction.
- Failures are Python exceptions: MissingPriceHistoryException, RetryError, AttributeError,
  IndexError and so on. They are not typed outcomes.
- There is no orchestrator combining the four extractors. The only validation of an item
  identifier is the `int()` conversion inside the console loop of `send_request`
  (src/backend.py:26-32), which re-prompts on ValueError; that loop is left out.
- The row loop builds its lists and prints a DataFrame but returns nothing. The model returns
  the lists it builds.

## Model

| member | source | states |
|---|---|---|
| `Backend.GetItemName` | src/backend.py:68 | succeeds exactly when the page has an `h1`, returning its text; AttributeError otherwise |
| `Backend.GetItemImage` | src/backend.py:79 | succeeds exactly when the og:image tag exists and has a `content` attribute, returning it; TypeError exactly when the tag is missing; KeyError exactly when the tag has no `content` |
| `PricePattern.MatchPriceAt` | src/backend.py:103 | the greedy matcher at one position returns a match end only if the pattern matches there, and returns every match end that exists: a match at a fixed start is unique |
| `PricePattern.FindPrice` | src/backend.py:103 | the returned span is a match and no match starts before it; None exactly when the text has no match anywhere |
| `PricePattern.RawPrice` | src/backend.py:103-104 | the raw amount is absent (IndexError) exactly when the text has no price match |
| `PricePattern.RawPriceOfLeftmostMatch` | src/backend.py:103-104 | the raw amount is the leftmost match's text with its commas removed, read as a decimal number; the trailing space does not count |
| `Text.RemoveCommas` | src/backend.py:104 | `re.sub(",", "", t)`: no comma is left, and the result is no longer than the input |
| `Text.RemoveCommasKeepsTheRest` | src/backend.py:104 | every character other than the comma is kept as often as it occurs |
| `Text.IntOfText` | src/backend.py:104 | `int()` of a digit string is its decimal value, and a trailing space is ignored |
| `PricePattern.Thousands` | src/backend.py:104 | the price times 1000 is the raw amount |
| `PricePattern.GroupingRoundTrip` | src/backend.py:103-104 | any number written with thousands separators and followed by " NP" is found at the start of the text and reads back as that number, whatever follows |
| `PricePattern.TwelveThousand` | src/backend.py:103-104 | "12,000 NP" gives 12000 NP, that is 12.0 thousand |
| `PricePattern.LeftmostNotLongest` | src/backend.py:103 | in "1234,567 NP" no match starts at the first digit, so the leftmost match is "234,567 " and the amount 234567 |
| `DatePattern.MatchDateAt` | src/backend.py:100 | a result of the greedy date matcher at one position is a match of the pattern there, split at the space and the comma |
| `DatePattern.MatchDateAtComplete` | src/backend.py:100 | every match of the date pattern at a position is the one the greedy matcher returns |
| `DatePattern.FindDate` | src/backend.py:100 | the returned span is a match and no match starts before it; None exactly when there is no match |
| `Calendar.MonthNumber` | src/backend.py:101 | `%B`: the month, if any, whose full English name equals the word up to case; None exactly when no month name does |
| `Calendar.MonthNumberOfName` | src/backend.py:101 | each month's name is read back as that month |
| `Calendar.Strptime` | src/backend.py:101 | only ValueError on failure; on success a valid Gregorian date that the pieces spell (`Spells`): the word is its month's name up to case, and a 1-2 digit day and a 4 digit year give its day and year |
| `Calendar.StrptimeAcceptsValidDates` | src/backend.py:101 | every valid date spelled by the pieces is accepted as exactly that date |
| `Calendar.StrptimeFailsExactly` | src/backend.py:101 | ValueError exactly when the pieces spell no valid date |
| `Calendar.SpelledDateUnique` | src/backend.py:101 | the pieces spell at most one date |
| `Backend.ParseRowDate` | src/backend.py:99-101 | IndexError exactly when the date text contains no date match; otherwise only ValueError can occur; a parsed date is valid and is the date spelled by the month word, day digits and year digits of the leftmost match; ValueError exactly when those pieces spell no valid date |
| `Backend.EmbeddedRowDate` | src/backend.py:99-101 | the date text "Updated: march 03, 2020 (est.)" reads as 2020-03-03: the first match inside other text is taken, the month regardless of case, the day zero-padded |
| `Backend.ParseRowPrice` | src/backend.py:103-104 | fails (only with IndexError) exactly when the row text has no price match; on success the price times 1000 is the raw amount of the leftmost match |
| `Backend.RowEntry` | src/backend.py:98-104 | the `try` body of one row: AttributeError exactly when the row has no date span; apart from that only IndexError or ValueError; a produced entry's date is the one parsed from the date span and its price the one parsed from the row text |
| `Backend.RowSkippedExactly` | src/backend.py:98-109 | a row is skipped (IndexError) exactly when its date text has no date match, or its date parses and its text has no price match |
| `Backend.RowRaisesExactly` | src/backend.py:98-108 | a row aborts the loop exactly when it has no date span, or its date text matches the date pattern but is not a date; the error is then AttributeError or ValueError |
| `Backend.Outcomes` | src/backend.py:97-104 | one outcome per row, in document order, each the row's `try` body |
| `Backend.PriceHistoryOf` | src/backend.py:91-109 | AttributeError when the page has no price-row container; a successful history has as many dates and prices as there are well-formed rows |
| `Backend.Accumulate` | src/backend.py:93-109 | on success the date and price lists are equally long and no longer than the rows |
| `Backend.KeptRows` | src/backend.py:97-109 | the positions of the rows that yield an entry: in bounds, strictly increasing, and containing a row exactly when its `try` body completes |
| `Backend.PriceHistoryIsKeptRows` | src/backend.py:93-109 | a successful history has as many dates and prices as there are well-formed rows; the k-th date and the k-th price both come from the k-th well-formed row in document order; no row raised |
| `Backend.PriceHistoryFailsAtFirstRaise` | src/backend.py:97-109 | the history fails exactly when some row raises an exception other than IndexError, and then with the error of the first such row |
| `Backend.GetPriceHistory` | src/backend.py:91-109 | the loop's result is the accumulation of the rows' outcomes (AttributeError when the page has no price-row container), with the date and price lists in lock-step |
| `Backend.DateRoundTrip` | src/backend.py:99-101 | a valid date with a four-digit year, written as "March 3, 2020" is written, reads back as that date |
| `Backend.ExampleRow` | src/backend.py:97-107 | the row with date "March 3, 2020" and text "12,000 NP" gives the entry 2020-03-03 with price 12.0 |
| `Backend.CheckIfInflated` | src/backend.py:125-131 | None exactly when the page has no notice; AttributeError exactly when the notice has no `strong` child; IndexError exactly when the notice text has no `Word D, YYYY` date; no other exception, so otherwise the result is the `strong` text and the text of the leftmost date match |
| `Backend.Classify` | src/backend.py:52-55 | one attempt: fatal (MissingPriceHistory) exactly on status 404; the page exactly on a response outside 400-599; every other 4xx/5xx and every connection failure is retryable |
| `Backend.AttemptLimit` | src/backend.py:38 | the attempt budget is the configured maximum, or one attempt when the maximum is 0 |
| `Backend.FetchFrom` | src/backend.py:36-57 | the retry loop from a given attempt on makes at least one more request and stays within the maximum; its result is the page or the fatal error of its last attempt, or RetryError when that attempt was retryable |
| `Backend.Fetch` | src/backend.py:36-57 | the decorated call makes between 1 and the attempt budget requests, and succeeds exactly when its last attempt fetched the page |
| `Backend.ParseHtmlAsSoup` | src/backend.py:36-57 | the retry loop's result and attempt count are those of `Fetch`, with between 1 and the attempt limit requests made |
| `Backend.FetchFromDecided` | src/backend.py:36-57 | the run is decided by the first attempt that is not retryable: its page or its error is returned right after it; if all attempts up to the limit are retryable, RetryError is raised after exactly the limit |
| `Backend.NotFoundIsNotRetried` | src/backend.py:52-54 | a 404 on the first request raises MissingPriceHistory after that single request |
| `Backend.SuccessWithinLimit` | src/backend.py:36-57 | retryable failures followed, within the limit, by a good response return that page after j + 1 requests |
| `Backend.RetriesExhausted` | src/backend.py:36-55 | retryable failures on every attempt up to the limit end in RetryError after exactly the limit |
| `Core.ParseHtmlAsSoup` | src/core.py:12-16 | succeeds exactly on a response outside 400-599, returning its page; HTTPError exactly for a 4xx/5xx response, 404 included; RequestException exactly for a connection failure |
| `Core.AgreesWithOneAttempt` | src/core.py:12-16 | the draft's fetch succeeds exactly when the crawler's fetch with a budget of one attempt does (one request, same page); the two differ only in the exception raised |
| `Core.GetPriceHistory` | src/core.py:18-38 | the draft's loop yields, for the fetched page, exactly the crawler's price history (`PriceHistoryOf`), with the lists in lock-step |

## Left out

- The console loop of `send_request` (src/backend.py:23-34) reads from standard input and
  prints messages; it is interactive I/O, and its `int()` validation of the identifier is not
  modelled.
- The random waits between attempts (`wait_random`): timing has no observable effect on the
  result, so sleeping is not modelled.
- HTTP itself and the URL template. The answers of successive requests are a parameter
  `network: nat -> Attempt`, and each answer is a status with its page or a connection-level
  RequestException.
- HTML parsing by BeautifulSoup and its class matching. A page is the result of the lookups the
  extractors make (`Backend.Page`), with `find` returning None as `Option.None`.
- The pandas DataFrame built from the lists and printed. `get_price_history` returns nothing
  in either file; the model returns the lists instead.
- `Backend.ParseRowPrice`: prices are exact rationals (`raw / 1000`), not IEEE doubles. The
  rounding of `int / 1000` in floating point is not modelled. Neither are the exceptions that
  arise from huge amounts. `int / 1000` raises OverflowError once the quotient exceeds the
  largest double (a raw amount of about 1.8e311 NP, e.g. "1" followed by 104 ",000" groups).
  On CPython 3.11 and later, `int()` also raises ValueError for a text of more than 4300 digits.
  Neither is caught by the row loop, so in Python such a row ends the whole extraction, while
  the model yields an entry for it.
- `Text.IsDigit`: ASCII digits only. Python's `\d` also matches other Unicode decimal digits,
  and `int()` would read them.
- `Calendar.Strptime`: modelled on the three pieces the date pattern matches, with English month
  names in the C locale. Whitespace handling of the format and other locales are not modelled.
- `Backend.Classify`: MissingPriceHistoryException is taken not to be a subclass of
  RequestException. Its definition in `errors.py` is not part of this model; if it were a
  RequestException, a 404 would be retried.
- `Backend.FetchFrom`: RetryError is modelled without the last attempt it wraps.
- `src/frontend.py`, the presentation subclass `JellyneoIDBDashboard`, is not part of this model.
- The values of `MAX_RETRIES`, the wait bounds and `IDB_URL_TEMPLATE` (`const.py`, not part of
  this model) are parameters.
- The `__main__` block of src/core.py:43-45 is a fixed-URL script entry point.

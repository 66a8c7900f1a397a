/**
 * The earlier draft of the extraction code: a module-level `get_price_history(url)` that makes
 * one request, parses it and runs the same row loop as the crawler class.
 */
module Core {
  import opened Results
  import Backend

  /** The draft's `parse_html_as_soup`: one request, `raise_for_status`, no special case for 404, no retry. */
  function ParseHtmlAsSoup(a: Backend.Attempt): (r: Result<Backend.Page, PyError>)
    ensures r.Success? <==> a.Response? && !(400 <= a.status < 600)
    ensures r.Success? ==> r.value == a.page
    ensures r.Failure? ==> (r.error == HTTPError <==> a.Response?)
    ensures r == Failure(RequestException) <==> a.ConnectionFailure?
  {
    match a
    case ConnectionFailure => Failure(RequestException)
    case Response(status, page) => if 400 <= status < 600 then Failure(HTTPError) else Success(page)
  }

  /**
   * The draft fetches the same page the crawler would fetch with a single permitted attempt;
   * the two differ only in the exception: the draft raises HTTPError for a 404 where the
   * crawler raises MissingPriceHistory, and raises the request's own exception where the
   * crawler raises RetryError.
   */
  lemma AgreesWithOneAttempt(network: nat -> Backend.Attempt)
    ensures var draft, run := ParseHtmlAsSoup(network(0)), Backend.Fetch(1, network);
      run.attempts == 1 &&
      (draft.Success? <==> run.result.Success?) &&
      (draft.Success? ==> draft == run.result) &&
      (draft.Failure? ==>
         run.result.error == (if network(0).Response? && network(0).status == 404
                              then MissingPriceHistory else RetryError))
  {
    Backend.FetchFromDecided(1, network, 0);
  }

  /** What the draft's `get_price_history(url)` yields when the request is answered by `a`. */
  function PriceHistoryAt(a: Backend.Attempt): Result<Backend.PriceHistoryEntries, PyError>
  {
    match ParseHtmlAsSoup(a)
    case Failure(e) => Failure(e)
    case Success(page) => Backend.PriceHistoryOf(page)
  }

  /**
   * The draft's `get_price_history(url)`: the fetch, then a loop whose body is the crawler's,
   * so it yields the crawler's entries for every page.
   */
  method GetPriceHistory(a: Backend.Attempt) returns (r: Result<Backend.PriceHistoryEntries, PyError>)
    ensures r == PriceHistoryAt(a)
    ensures r.Success? ==> |r.value.date| == |r.value.price|
  {
    var soup := ParseHtmlAsSoup(a);
    if soup.Failure? {
      return Failure(soup.error);
    }
    if soup.value.priceRows.None? {
      return Failure(AttributeError);
    }
    var rows := soup.value.priceRows.value;
    ghost var os := Backend.Outcomes(rows);
    var entries := Backend.PriceHistoryEntries([], []);
    for i := 0 to |rows|
      invariant Backend.Accumulate(os[..i]) == Success(entries)
    {
      var outcome := Backend.RowEntry(rows[i]);
      Backend.AccumulateStep(os, i);
      if outcome.Success? {
        entries := Backend.PriceHistoryEntries(entries.date + [outcome.value.date], entries.price + [outcome.value.price]);
      } else if outcome.error != IndexError {
        Backend.FailureIsFinal(os, i + 1);
        return Failure(outcome.error);
      }
    }
    assert os[..|rows|] == os;
    r := Success(entries);
  }
}

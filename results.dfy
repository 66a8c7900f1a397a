/** Optional values, results and the Python exceptions the crawler can raise. */
module Results {

  datatype Option<+T> = None | Some(value: T)

  datatype Result<+R, +E> = Success(value: R) | Failure(error: E)

  /** The exception classes that can leave the modelled code. */
  datatype PyError =
    | AttributeError            // `.text` on a lookup that found nothing
    | TypeError                 // subscripting a lookup that found nothing
    | KeyError                  // a tag without the requested attribute
    | IndexError                // `re.findall(...)[0]` on an empty match list
    | ValueError                // `datetime.strptime` rejecting the matched text
    | HTTPError                 // `raise_for_status` on a 4xx/5xx status
    | RequestException          // a network-level failure of `requests.get`
    | MissingPriceHistory       // the crawler's own exception for a 404
    | RetryError                // tenacity giving up after the last attempt
}

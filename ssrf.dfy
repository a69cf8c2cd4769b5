/**
 * The URL guard of the secure fetcher. The HTTP client is a parameter: the
 * response to a GET of a URL with a timeout, or a request error (connection
 * failure, timeout, invalid URL) when no response arrives.
 */
module Ssrf {
  import opened Str

  /** The timeout, in seconds, passed with every request. */
  const Timeout := 5

  datatype Response = Response(status: int, text: string) | RequestError

  type Client = (string, int) -> Response

  /** How a fetch ends: the body, `None` after a request exception, or the guard's ValueError escaping. */
  datatype FetchOutcome = Body(text: string) | NoneReturned | RaisesValueError

  /** The guard: the URL starts with `http://` or `https://`, compared case-sensitively. */
  predicate SchemeAllowed(url: string): (allowed: bool)
    ensures allowed <==>
      7 <= |url| && url[..4] == "http" && (url[4..7] == "://" || (8 <= |url| && url[4..8] == "s://"))
  {
    StartsWith(url, "http://") || StartsWith(url, "https://")
  }

  /** `raise_for_status` raises for client and server error statuses. */
  predicate IsErrorStatus(status: int) {
    400 <= status < 600
  }

  /**
   * A URL failing the guard raises ValueError, which is not a request exception
   * and so is not turned into `None`. An accepted URL is requested unchanged; an
   * error status or a request error gives `None`, anything else the body.
   */
  function FetchUrlSecure(url: string, get: Client): (r: FetchOutcome)
    ensures r == RaisesValueError <==> !SchemeAllowed(url)
    ensures SchemeAllowed(url) ==>
      (r.Body? <==> get(url, Timeout).Response? && !IsErrorStatus(get(url, Timeout).status))
    ensures r.Body? ==> r.text == get(url, Timeout).text
  {
    if !SchemeAllowed(url) then RaisesValueError
    else match get(url, Timeout)
      case RequestError => NoneReturned
      case Response(status, text) => if IsErrorStatus(status) then NoneReturned else Body(text)
  }

  /** The guard runs before any request: a rejected URL ends the same way whatever the client would answer. */
  lemma GuardBeforeRequest(url: string, get: Client, get': Client)
    requires !SchemeAllowed(url)
    ensures FetchUrlSecure(url, get) == FetchUrlSecure(url, get') == RaisesValueError
  {
  }

  /** Only the answer to the URL itself, with the 5-second timeout, matters to an accepted fetch. */
  lemma OnlyTheRequestedUrlMatters(url: string, get: Client, get': Client)
    requires get(url, Timeout) == get'(url, Timeout)
    ensures FetchUrlSecure(url, get) == FetchUrlSecure(url, get')
  {
  }

  /** The scheme test is case-sensitive: an upper-case scheme is rejected. */
  lemma UpperCaseSchemeRejected(rest: string)
    ensures !SchemeAllowed("HTTP://" + rest) && !SchemeAllowed("HTTPS://" + rest)
  {
    assert ("HTTP://" + rest)[1] == 'T';
    assert ("HTTPS://" + rest)[1] == 'T';
  }
}

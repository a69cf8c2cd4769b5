/**
 * The redirect decision of the secure redirect handler: the `url` query
 * parameter, absent or present, against a fixed whitelist.
 */
module OpenRedirect {
  import opened Wrappers

  /** `get_whitelist_urls`: the two allowed targets. */
  function GetWhitelistUrls(): (urls: seq<string>)
    ensures |urls| == 2 && urls[0] == "https://example.com" && urls[1] == "https://www.example.com"
  {
    ["https://example.com", "https://www.example.com"]
  }

  /** Where the handler sends the client: the supplied URL, or the `index` route. */
  datatype Redirect = ToUrl(url: string) | ToIndex

  /**
   * A URL equal to a whitelist entry is redirected to as it is; anything else,
   * including a missing parameter, goes to the `index` route.
   */
  function RedirectSecure(url: Option<string>): (r: Redirect)
    ensures r.ToUrl? <==> url.Some? && url.value in GetWhitelistUrls()
    ensures r.ToUrl? ==> r.url == url.value
  {
    match url
    case Some(u) => if u in GetWhitelistUrls() then ToUrl(u) else ToIndex
    case None => ToIndex
  }

  /** The handler only ever redirects to a whitelist entry or to the index route. */
  lemma TargetsAreWhitelisted(url: Option<string>)
    ensures RedirectSecure(url).ToUrl? ==> RedirectSecure(url).url in GetWhitelistUrls()
  {
  }

  /**
   * Membership is exact string equality: a trailing slash or a path after an
   * allowed host is not accepted.
   */
  lemma ExactMatchOnly(suffix: string)
    requires suffix != ""
    ensures RedirectSecure(Some("https://example.com" + suffix)) == ToIndex
    ensures RedirectSecure(Some("https://www.example.com" + suffix)) == ToIndex
  {
    var a := "https://example.com" + suffix;
    var b := "https://www.example.com" + suffix;
    assert a[8] == 'e' && "https://www.example.com"[8] == 'w';
    assert a != "https://example.com" && a != "https://www.example.com";
    assert |b| > 23;
  }
}

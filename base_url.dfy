/**
 * The frontend's address builder for API calls: a path is placed under the
 * API base, with a "/" put in front of it when it does not start with one.
 * The base (an environment setting with a fallback) is a parameter.
 */
module BaseUrl {

  /** `path.startsWith("/")`. */
  predicate StartsWithSlash(path: string) {
    |path| > 0 && path[0] == '/'
  }

  /** The path with a leading "/" guaranteed. */
  function Clean(path: string): (clean: string)
    ensures StartsWithSlash(clean)
    ensures StartsWithSlash(path) ==> |clean| == |path| && clean[1..] == path[1..]
    ensures !StartsWithSlash(path) ==> |clean| == |path| + 1 && clean[1..] == path
  {
    if StartsWithSlash(path) then path else "/" + path
  }

  /** apiUrl: the base followed by the cleaned path. */
  function ApiUrl(apiBase: string, path: string): (url: string)
    ensures |url| > |apiBase| && url[..|apiBase|] == apiBase && url[|apiBase|] == '/'
    ensures StartsWithSlash(path) ==> |url| == |apiBase| + |path| && url[|apiBase|..] == path
    ensures !StartsWithSlash(path) ==> |url| == |apiBase| + |path| + 1 && url[|apiBase| + 1..] == path
  {
    var clean := Clean(path);
    assert (apiBase + clean)[|apiBase|..] == clean;
    apiBase + clean
  }

  /** Adding the missing "/" by hand changes nothing. */
  lemma ApiUrlIdempotent(apiBase: string, path: string)
    requires !StartsWithSlash(path)
    ensures ApiUrl(apiBase, path) == ApiUrl(apiBase, "/" + path)
  {
    assert StartsWithSlash("/" + path);
  }

  /** The default path gives the base followed by a single "/". */
  lemma ApiUrlDefault(apiBase: string)
    ensures ApiUrl(apiBase, "") == apiBase + "/"
  {
  }

  /**
   * The part of an address after the base is itself a cleaned path, and
   * building an address from it gives the same address back.
   */
  lemma ApiUrlFixedPoint(apiBase: string, path: string)
    ensures var url := ApiUrl(apiBase, path);
      StartsWithSlash(url[|apiBase|..]) && ApiUrl(apiBase, url[|apiBase|..]) == url
  {
    var url := ApiUrl(apiBase, path);
    assert url == apiBase + url[|apiBase|..];
  }

  /** Two paths give one address exactly when they agree once cleaned. */
  lemma ApiUrlSameAddress(apiBase: string, p: string, q: string)
    ensures ApiUrl(apiBase, p) == ApiUrl(apiBase, q) <==> Clean(p) == Clean(q)
  {
    if ApiUrl(apiBase, p) == ApiUrl(apiBase, q) {
      assert Clean(p) == ApiUrl(apiBase, p)[|apiBase|..];
      assert Clean(q) == ApiUrl(apiBase, q)[|apiBase|..];
    }
  }
}

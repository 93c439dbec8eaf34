/** `imageUrl`: turns a lesson's image path into a URL on the backend. */
module Images {
  import opened Text

  /** The scheme and host of the backend the storefront talks to. */
  const Scheme: string := "https://"
  const Host: string := "after-school-backend-fycn.onrender.com"

  /** The backend's base URL, `API_BASE_URL`. */
  const ApiBaseUrl: string := Scheme + Host

  predicate IsAbsoluteUrl(path: string) {
    StartsWith(path, "http://") || StartsWith(path, "https://")
  }

  /**
   * An empty path stays empty; a full URL is kept; a path starting with "/"
   * is appended to the base URL; any other path is appended after a "/".
   */
  function ImageUrl(path: string): (r: string)
    ensures r == [] <==> path == []
    ensures path != [] ==> IsAbsoluteUrl(r)
    ensures |path| <= |r| && r[|r| - |path|..] == path
    ensures IsAbsoluteUrl(path) ==> r == path
    ensures path != [] && !IsAbsoluteUrl(path) ==>
              StartsWith(r, ApiBaseUrl + "/")
              && r[|ApiBaseUrl| + 1..] == (if path[0] == '/' then path[1..] else path)
  {
    assert ApiBaseUrl[..|Scheme|] == Scheme;
    if path == "" then ""
    else if IsAbsoluteUrl(path) then path
    else if StartsWith(path, "/") then
      assert (ApiBaseUrl + path)[..8] == ApiBaseUrl[..8];
      ApiBaseUrl + path
    else
      assert (ApiBaseUrl + "/" + path)[..8] == ApiBaseUrl[..8];
      ApiBaseUrl + "/" + path
  }

  /** Rewriting an already rewritten path changes nothing. */
  lemma ImageUrlIdempotent(path: string)
    ensures ImageUrl(ImageUrl(path)) == ImageUrl(path)
  {
  }
}

/** `getBaseUrl` of src/lib/url.ts: the site's origin without a trailing slash. */
module Url {
  import opened Common

  const DefaultBaseUrl: string := "http://localhost:3000"

  /** `s.replace(/\/$/, '')`: the regular expression has no `g` flag and `$` matches only at
      the end of the input, so at most one final `/` goes. */
  function StripTrailingSlash(s: string): (r: string)
    ensures |r| == |s| || |r| == |s| - 1
    ensures r == s[..|r|]
    ensures |r| == |s| - 1 <==> |s| > 0 && s[|s| - 1] == '/'
  {
    if |s| > 0 && s[|s| - 1] == '/' then s[..|s| - 1] else s
  }

  /** Exactly one slash is removed, so "x//" becomes "x/". */
  lemma StripsOnlyOneSlash(s: string)
    ensures StripTrailingSlash(s + "/") == s
    ensures StripTrailingSlash(s + "//") == s + "/"
  {
    assert (s + "//")[..|s| + 1] == s + "/";
  }

  /** A string that does not end in `/` is left as it is. */
  lemma KeepsUnslashed(s: string)
    requires s == [] || s[|s| - 1] != '/'
    ensures StripTrailingSlash(s) == s
  {
  }

  /** `getBaseUrl()`: the browser's origin when it is truthy, otherwise
      `NEXT_PUBLIC_BASE_URL ?? "http://localhost:3000"` (an empty variable is kept). */
  function GetBaseUrl(hasWindow: bool, origin: Option<string>, envBaseUrl: Option<string>): (r: string)
    ensures hasWindow && origin.Some? && origin.value != "" ==> r == StripTrailingSlash(origin.value)
    ensures !(hasWindow && origin.Some? && origin.value != "") && envBaseUrl.Some? ==> r == StripTrailingSlash(envBaseUrl.value)
    ensures !(hasWindow && origin.Some? && origin.value != "") && envBaseUrl.None? ==> r == DefaultBaseUrl
  {
    if hasWindow && origin.Some? && origin.value != "" then StripTrailingSlash(origin.value)
    else StripTrailingSlash(envBaseUrl.OrElse(DefaultBaseUrl))
  }
}

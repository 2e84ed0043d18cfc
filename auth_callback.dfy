/** The redirect decision of the auth callback route, src/app/auth/callback/route.ts: an OAuth
    code exchange first, an e-mail OTP check second, an error page otherwise. The two auth
    calls are inputs saying whether each would succeed. */
module AuthCallback {
  import opened Common
  import opened Url
  import opened UrlHost

  /** The parts of the request URL the route reads; a missing query parameter is None. */
  datatype CallbackRequest = CallbackRequest(
    origin: string, code: Option<string>, tokenHash: Option<string>, otpType: Option<string>, next: Option<string>)

  const DefaultNext: string := "/trial"
  const ErrorPath: string := "/login?error=AuthCodeError"

  /** `searchParams.get('next') ?? '/trial'`: only a missing parameter takes the default. */
  function NextPath(req: CallbackRequest): string
  {
    req.next.OrElse(DefaultNext)
  }

  /** A truthy query parameter. */
  predicate Given(p: Option<string>)
  {
    p.Some? && p.value != ""
  }

  /** The route tries the code exchange when a code is given. */
  predicate ExchangeSucceeds(req: CallbackRequest, exchangeOk: bool)
  {
    Given(req.code) && exchangeOk
  }

  /** It tries the OTP check when a token hash and a type are given. */
  predicate VerifySucceeds(req: CallbackRequest, verifyOk: bool)
  {
    Given(req.tokenHash) && Given(req.otpType) && verifyOk
  }

  /** A `next` that keeps the redirect on the host it is appended to: empty, or the start of
      a path, a query or a fragment. */
  predicate StaysOnHost(next: string)
  {
    next == [] || EndsAuthority(next[0])
  }

  /** `GET(request)`: the one redirect it returns. On the server `getBaseUrl` reads only
      `NEXT_PUBLIC_BASE_URL`. Without a successful exchange or OTP check it is the error page
      on the request's own origin; a sign-in
      lands on the base URL's host after a code exchange and on the request's host after an
      OTP check, provided `next` stays on the host it is appended to. */
  function CallbackRedirect(req: CallbackRequest, envBaseUrl: Option<string>, exchangeOk: bool, verifyOk: bool): (url: string)
    ensures !ExchangeSucceeds(req, exchangeOk) && !VerifySucceeds(req, verifyOk) ==> url == req.origin + ErrorPath
    ensures IsBareOrigin(req.origin) && !ExchangeSucceeds(req, exchangeOk) && !VerifySucceeds(req, verifyOk) ==>
      HostOf(url) == HostOf(req.origin)
    ensures IsBareOrigin(req.origin) && IsBareOrigin(GetBaseUrl(false, None, envBaseUrl)) && StaysOnHost(NextPath(req)) ==>
      HostOf(url) == if ExchangeSucceeds(req, exchangeOk) then HostOf(GetBaseUrl(false, None, envBaseUrl)) else HostOf(req.origin)
  {
    PathKeepsHost(GetBaseUrl(false, None, envBaseUrl), NextPath(req));
    PathKeepsHost(req.origin, NextPath(req));
    PathKeepsHost(req.origin, ErrorPath);
    if ExchangeSucceeds(req, exchangeOk) then GetBaseUrl(false, None, envBaseUrl) + NextPath(req)
    else if VerifySucceeds(req, verifyOk) then req.origin + NextPath(req)
    else req.origin + ErrorPath
  }

  /** What a successful sign-in puts before `next`: the base URL after a code exchange, the
      request's origin after an OTP check. */
  function SignInPrefix(req: CallbackRequest, envBaseUrl: Option<string>, exchangeOk: bool): string
  {
    if ExchangeSucceeds(req, exchangeOk) then GetBaseUrl(false, None, envBaseUrl) else req.origin
  }

  /** A successful sign-in redirects to its prefix followed by `next` (or `/trial`). */
  lemma SignInRedirect(req: CallbackRequest, envBaseUrl: Option<string>, exchangeOk: bool, verifyOk: bool)
    requires ExchangeSucceeds(req, exchangeOk) || VerifySucceeds(req, verifyOk)
    ensures CallbackRedirect(req, envBaseUrl, exchangeOk, verifyOk) == SignInPrefix(req, envBaseUrl, exchangeOk) + NextPath(req)
  {
  }

  /** `next` is appended unchecked, so `next=@host` makes the site's own authority the user
      information of the redirect, and a successful sign-in sends the browser to `host`. */
  lemma NextCanLeaveSite(req: CallbackRequest, envBaseUrl: Option<string>, exchangeOk: bool, verifyOk: bool, host: string)
    requires IsBareOrigin(req.origin) && IsBareOrigin(GetBaseUrl(false, None, envBaseUrl))
    requires ExchangeSucceeds(req, exchangeOk) || VerifySucceeds(req, verifyOk)
    requires req.next == Some("@" + host) && ValidHostName(host)
    ensures HostOf(CallbackRedirect(req, envBaseUrl, exchangeOk, verifyOk)) == Some(host)
  {
    var prefix := SignInPrefix(req, envBaseUrl, exchangeOk);
    SignInRedirect(req, envBaseUrl, exchangeOk, verifyOk);
    AtTakesOverHost(prefix, host);
  }

  /** `next=.name`, after an OTP check on a request whose origin has no port, sends the browser
      to a host the site's own name is only a prefix of. */
  lemma NextCanExtendHost(req: CallbackRequest, envBaseUrl: Option<string>, exchangeOk: bool, verifyOk: bool, name: string)
    requires IsBareOrigin(req.origin) && Excludes(AuthorityOfOrigin(req.origin), ':')
    requires !ExchangeSucceeds(req, exchangeOk) && VerifySucceeds(req, verifyOk)
    requires req.next == Some("." + name) && ValidHostName(name)
    ensures HostOf(CallbackRedirect(req, envBaseUrl, exchangeOk, verifyOk)) == Some(AuthorityOfOrigin(req.origin) + "." + name)
    ensures ValidHostName(AuthorityOfOrigin(req.origin) + "." + name)
  {
    SignInRedirect(req, envBaseUrl, exchangeOk, verifyOk);
    DotExtendsHost(req.origin, name);
  }

  // ---------------------------------------------------------------- a `next` kept on site

  /** `next` when it starts with `/`, the default otherwise. */
  function SafeNextPath(req: CallbackRequest): (p: string)
    ensures |p| > 0 && p[0] == '/'
    ensures req.next.Some? && |req.next.value| > 0 && req.next.value[0] == '/' ==> p == req.next.value
  {
    var n := NextPath(req);
    if |n| > 0 && n[0] == '/' then n else DefaultNext
  }

  /** The route with `next` checked: whatever `next` holds, the redirect stays on the base
      URL's host after a code exchange and on the request's host otherwise. */
  function SafeCallbackRedirect(req: CallbackRequest, envBaseUrl: Option<string>, exchangeOk: bool, verifyOk: bool): (url: string)
    ensures IsBareOrigin(req.origin) && IsBareOrigin(GetBaseUrl(false, None, envBaseUrl)) ==>
      HostOf(url) == if ExchangeSucceeds(req, exchangeOk) then HostOf(GetBaseUrl(false, None, envBaseUrl)) else HostOf(req.origin)
  {
    CallbackRedirect(req.(next := Some(SafeNextPath(req))), envBaseUrl, exchangeOk, verifyOk)
  }

  /** The check changes nothing for a `next` that already starts with `/`, the missing `next`
      included. */
  lemma SafeRedirectAgreesOnPaths(req: CallbackRequest, envBaseUrl: Option<string>, exchangeOk: bool, verifyOk: bool)
    requires req.next.None? || (|req.next.value| > 0 && req.next.value[0] == '/')
    ensures SafeCallbackRedirect(req, envBaseUrl, exchangeOk, verifyOk) == CallbackRedirect(req, envBaseUrl, exchangeOk, verifyOk)
  {
  }

  /** A failed code exchange is not final: the route answers as if no code had been sent. */
  lemma FailedExchangeFallsThrough(req: CallbackRequest, envBaseUrl: Option<string>, verifyOk: bool)
    ensures CallbackRedirect(req, envBaseUrl, false, verifyOk)
         == CallbackRedirect(req.(code := None), envBaseUrl, true, verifyOk)
  {
  }

  /** The default applies only to a missing `next`: an empty one is kept, and the redirect
      is then the bare base URL or origin. */
  lemma EmptyNextIsKept(req: CallbackRequest, envBaseUrl: Option<string>, exchangeOk: bool, verifyOk: bool)
    requires req.next == Some("")
    requires ExchangeSucceeds(req, exchangeOk) || VerifySucceeds(req, verifyOk)
    ensures CallbackRedirect(req, envBaseUrl, exchangeOk, verifyOk)
         == if ExchangeSucceeds(req, exchangeOk) then GetBaseUrl(false, None, envBaseUrl) else req.origin
  {
    assert GetBaseUrl(false, None, envBaseUrl) + "" == GetBaseUrl(false, None, envBaseUrl);
    assert req.origin + "" == req.origin;
  }

  /** Without a `next` parameter a successful sign-in lands on the trial page, of the base URL
      after a code exchange and of the request's origin after an OTP check. */
  lemma MissingNextGoesToTrial(req: CallbackRequest, envBaseUrl: Option<string>, exchangeOk: bool, verifyOk: bool)
    requires req.next.None?
    requires ExchangeSucceeds(req, exchangeOk) || VerifySucceeds(req, verifyOk)
    ensures CallbackRedirect(req, envBaseUrl, exchangeOk, verifyOk)
         == (if ExchangeSucceeds(req, exchangeOk) then GetBaseUrl(false, None, envBaseUrl) else req.origin) + "/trial"
  {
  }
}

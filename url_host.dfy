/** Which host a browser goes to when it follows an absolute http(s) URL: the host-finding
    part of the WHATWG URL Standard's basic URL parser for special schemes ("scheme state",
    "authority state", "host state"). After `scheme://` the authority runs up to the first
    `/`, `?`, `#` or `\`; within it, everything up to the last `@` is user information; the
    host is what follows, up to the port's `:`. */
module UrlHost {
  import opened Common
  import Uuid

  /** The characters that end the authority of a special-scheme URL. */
  predicate EndsAuthority(c: char)
  {
    c == '/' || c == '?' || c == '#' || c == '\\'
  }

  predicate NoAuthorityEnd(s: string)
  {
    forall i :: 0 <= i < |s| ==> !EndsAuthority(s[i])
  }

  predicate Excludes(s: string, c: char)
  {
    forall i :: 0 <= i < |s| ==> s[i] != c
  }

  /** The index of the first `:`, or the length when there is none. */
  function ColonIndex(s: string): (n: nat)
    ensures n <= |s|
    ensures forall k :: 0 <= k < n ==> s[k] != ':'
    ensures n < |s| ==> s[n] == ':'
  {
    if s == [] || s[0] == ':' then 0 else 1 + ColonIndex(s[1..])
  }

  /** The longest prefix holding no authority-ending character. */
  function AuthorityOf(s: string): (a: string)
    ensures |a| <= |s| && a == s[..|a|]
    ensures NoAuthorityEnd(a)
    ensures |a| < |s| ==> EndsAuthority(s[|a|])
  {
    if s == [] || EndsAuthority(s[0]) then [] else [s[0]] + AuthorityOf(s[1..])
  }

  /** What follows the last `c`, the whole of `s` when there is none: after the last `@` the
      host and port without the user information, after the last `.` a host's last label. */
  function AfterLast(s: string, c: char): (r: string)
    ensures |r| <= |s| && r == s[|s| - |r|..]
    ensures Excludes(r, c)
    ensures |r| < |s| ==> s[|s| - |r| - 1] == c
  {
    if s == [] || s[|s| - 1] == c then [] else AfterLast(s[..|s| - 1], c) + [s[|s| - 1]]
  }

  /** What precedes the first `:`: the host without its port. */
  function BeforeColon(s: string): (r: string)
    ensures |r| <= |s| && r == s[..|r|]
    ensures Excludes(r, ':')
    ensures |r| < |s| ==> s[|r|] == ':'
  {
    s[..ColonIndex(s)]
  }

  /** The host of an absolute `scheme://...` URL; None when the first `:` is not followed by
      `//`. */
  function HostOf(url: string): Option<string>
  {
    var i := ColonIndex(url);
    if i + 3 <= |url| && url[i..i + 3] == "://" then Some(BeforeColon(AfterLast(AuthorityOf(url[i + 3..]), '@')))
    else None
  }

  // ---------------------------------------------------------------- host names the parser keeps

  predicate IsHostNameChar(c: char)
  {
    'a' <= c <= 'z' || '0' <= c <= '9' || c == '-' || c == '.'
  }

  /** The URL Standard's "ends in a number" test on a last label: all digits, or `0x` and hex
      digits. Such a host is read as an IPv4 address, or rejected. */
  predicate IsNumberLabel(l: string)
  {
    || (l != [] && forall i :: 0 <= i < |l| ==> '0' <= l[i] <= '9')
    || (|l| >= 2 && l[..2] == "0x" && forall i :: 2 <= i < |l| ==> Uuid.IsLowerHexDigit(l[i]))
  }

  /** A host the URL parser accepts and keeps as written: not empty; lower-case ASCII letters,
      digits, `-` and `.` only, so no forbidden code point and nothing to case-map; no `--`, so
      no `xn--` label to decode; no trailing `.`; and a last label that is not a number. */
  predicate ValidHostName(h: string)
  {
    h != [] && h[|h| - 1] != '.' && HostNameChars(h) && NoDoubleHyphen(h) && !IsNumberLabel(AfterLast(h, '.'))
  }

  predicate HostNameChars(h: string)
  {
    forall i :: 0 <= i < |h| ==> IsHostNameChar(h[i])
  }

  predicate NoDoubleHyphen(h: string)
  {
    forall i, j :: 0 <= i < |h| && 0 <= j < |h| && j == i + 1 ==> !(h[i] == '-' && h[j] == '-')
  }

  /** A valid host name ends no authority and holds no `@` and no `:`. */
  lemma ValidHostNameIsPlain(h: string)
    requires ValidHostName(h)
    ensures NoAuthorityEnd(h) && Excludes(h, '@') && Excludes(h, ':')
  {
    assert forall i :: 0 <= i < |h| ==> IsHostNameChar(h[i]);
  }

  /** `scheme://authority` with nothing after the authority and no user information. */
  predicate HasOriginShape(o: string)
  {
    var i := ColonIndex(o);
    0 < i && i + 3 <= |o| && o[i..i + 3] == "://"
    && NoAuthorityEnd(o[i + 3..]) && Excludes(o[i + 3..], '@')
  }

  /** A URL origin as the URL API serialises one, `scheme://host[:port]` with a valid host. */
  predicate IsBareOrigin(o: string)
  {
    HasOriginShape(o) && ValidHostName(BeforeColon(o[ColonIndex(o) + 3..]))
  }

  /** The authority of a bare origin, everything after `scheme://`. */
  function AuthorityOfOrigin(o: string): (a: string)
    requires IsBareOrigin(o)
    ensures HostOf(o) == Some(BeforeColon(a))
  {
    var i := ColonIndex(o);
    AuthorityOfWhole(o[i + 3..]);
    AfterLastNone(o[i + 3..], '@');
    o[i + 3..]
  }

  // ---------------------------------------------------------------- the parts, pinned down

  lemma ColonIndexAppend(a: string, b: string)
    requires ColonIndex(a) < |a|
    ensures ColonIndex(a + b) == ColonIndex(a)
  {
    var n := ColonIndex(a);
    assert (a + b)[n] == ':';
    assert forall k :: 0 <= k < n ==> (a + b)[k] == a[k];
  }

  lemma AuthorityOfWhole(s: string)
    requires NoAuthorityEnd(s)
    ensures AuthorityOf(s) == s
  {
  }

  /** The authority stops exactly where an authority-ending character (or the end) comes. */
  lemma AuthorityOfStopsAt(h: string, t: string)
    requires NoAuthorityEnd(h)
    requires t == [] || EndsAuthority(t[0])
    ensures AuthorityOf(h + t) == h
  {
    var s := h + t;
    assert s[..|h|] == h;
    assert forall k :: 0 <= k < |h| ==> s[k] == h[k];
  }

  lemma AfterLastNone(s: string, c: char)
    requires Excludes(s, c)
    ensures AfterLast(s, c) == s
  {
  }

  /** Everything up to a `c` is dropped. */
  lemma AfterLastSplit(x: string, c: char, y: string)
    ensures AfterLast(x + [c] + y, c) == AfterLast(y, c)
  {
    var s := x + [c] + y;
    var r, t := AfterLast(s, c), AfterLast(y, c);
    assert s[|s| - |y|..] == y;
    if |t| < |y| {
      assert s[|s| - |t| - 1] == y[|y| - |t| - 1];
    } else {
      assert s[|s| - |y| - 1] == c;
    }
    assert r == s[|s| - |t|..] == t;
  }

  lemma BeforeColonNone(s: string)
    requires Excludes(s, ':')
    ensures BeforeColon(s) == s
  {
  }

  // ---------------------------------------------------------------- appending to an origin

  /** The host of `o + rest` is the host found in the authority `AuthorityOfOrigin(o) + rest`
      once the authority has absorbed `rest`'s leading part. */
  lemma AppendKeepsScheme(o: string, rest: string)
    requires HasOriginShape(o)
    ensures var i := ColonIndex(o);
      && ColonIndex(o + rest) == i
      && (o + rest)[i..i + 3] == "://"
      && (o + rest)[i + 3..] == o[i + 3..] + rest
  {
    ColonIndexAppend(o, rest);
  }

  /** A path, query or fragment after an origin leaves the host alone. */
  lemma PathKeepsHost(o: string, path: string)
    ensures IsBareOrigin(o) && (path == [] || EndsAuthority(path[0])) ==> HostOf(o + path) == HostOf(o)
  {
    if HasOriginShape(o) && (path == [] || EndsAuthority(path[0])) {
      var i := ColonIndex(o);
      AppendKeepsScheme(o, path);
      AuthorityOfStopsAt(o[i + 3..], path);
      AuthorityOfWhole(o[i + 3..]);
    }
  }

  /** Neither concatenation adds an authority-ending character or a `c`. */
  lemma ConcatKeepsOut(x: string, y: string, c: char)
    ensures NoAuthorityEnd(x) && NoAuthorityEnd(y) ==> NoAuthorityEnd(x + y)
    ensures Excludes(x, c) && Excludes(y, c) ==> Excludes(x + y, c)
  {
    assert forall k :: 0 <= k < |x| ==> (x + y)[k] == x[k];
    assert forall k :: |x| <= k < |x + y| ==> (x + y)[k] == y[k - |x|];
  }

  lemma AtAfterShape(o: string, host: string)
    requires HasOriginShape(o)
    requires NoAuthorityEnd(host) && Excludes(host, '@') && Excludes(host, ':')
    ensures HostOf(o + ("@" + host)) == Some(host)
  {
    var i := ColonIndex(o);
    var a := o[i + 3..];
    AppendKeepsScheme(o, "@" + host);
    ConcatKeepsOut("@", host, '@');
    ConcatKeepsOut(a, "@" + host, '@');
    assert a + ("@" + host) == a + ['@'] + host;
    AuthorityOfWhole(a + ['@'] + host);
    AfterLastSplit(a, '@', host);
    AfterLastNone(host, '@');
    BeforeColonNone(host);
  }

  lemma DotAfterShape(o: string, name: string)
    requires HasOriginShape(o) && Excludes(o[ColonIndex(o) + 3..], ':')
    requires NoAuthorityEnd(name) && Excludes(name, '@') && Excludes(name, ':')
    ensures HostOf(o + ("." + name)) == Some(o[ColonIndex(o) + 3..] + "." + name)
  {
    var i := ColonIndex(o);
    var a := o[i + 3..];
    var auth := a + ("." + name);
    AppendKeepsScheme(o, "." + name);
    ConcatKeepsOut(".", name, '@');
    ConcatKeepsOut(".", name, ':');
    ConcatKeepsOut(a, "." + name, '@');
    ConcatKeepsOut(a, "." + name, ':');
    assert auth == a + "." + name;
    AuthorityOfWhole(auth);
    AfterLastNone(auth, '@');
    BeforeColonNone(auth);
  }

  /** `@host` after an origin turns the origin's authority into user information: the browser
      goes to `host`. */
  lemma AtTakesOverHost(o: string, host: string)
    requires IsBareOrigin(o) && ValidHostName(host)
    ensures HostOf(o + ("@" + host)) == Some(host)
  {
    ValidHostNameIsPlain(host);
    AtAfterShape(o, host);
  }

  /** `.name` after an origin without a port extends the origin's host name, and the result is
      again a host name the parser keeps. */
  lemma DotExtendsHost(o: string, name: string)
    requires IsBareOrigin(o) && Excludes(AuthorityOfOrigin(o), ':') && ValidHostName(name)
    ensures HostOf(o + ("." + name)) == Some(AuthorityOfOrigin(o) + "." + name)
    ensures ValidHostName(AuthorityOfOrigin(o) + "." + name)
  {
    var a := AuthorityOfOrigin(o);
    ValidHostNameIsPlain(name);
    DotAfterShape(o, name);
    BeforeColonNone(a);
    JoinedHostName(a, name);
  }

  /** Two valid host names joined by a `.` make a valid host name. */
  lemma JoinedHostName(a: string, b: string)
    requires ValidHostName(a) && ValidHostName(b)
    ensures ValidHostName(a + "." + b)
  {
    var h := a + "." + b;
    assert h == a + ['.'] + b;
    AfterLastSplit(a, '.', b);
    JoinedChars(a, b);
    JoinedNoDoubleHyphen(a, b);
  }

  lemma JoinedChars(a: string, b: string)
    requires HostNameChars(a) && HostNameChars(b)
    ensures HostNameChars(a + "." + b)
  {
    var h := a + "." + b;
    forall i | 0 <= i < |h|
      ensures IsHostNameChar(h[i])
    {
      if i < |a| {
        assert h[i] == a[i];
      } else if i > |a| {
        assert h[i] == b[i - |a| - 1];
      }
    }
  }

  lemma JoinedNoDoubleHyphen(a: string, b: string)
    requires NoDoubleHyphen(a) && NoDoubleHyphen(b)
    ensures NoDoubleHyphen(a + "." + b)
  {
    var h := a + "." + b;
    forall i, j | 0 <= i < |h| && 0 <= j < |h| && j == i + 1
      ensures !(h[i] == '-' && h[j] == '-')
    {
      if j < |a| {
        assert h[i] == a[i] && h[j] == a[j];
      } else if i > |a| {
        assert h[i] == b[i - |a| - 1] && h[j] == b[j - |a| - 1];
      } else if i == |a| {
        assert h[i] == '.';
      } else {
        assert h[j] == '.';
      }
    }
  }
}

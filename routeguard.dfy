/**
 * The request guard run for every page request: after the session refresh,
 * pages that need a member send anonymous visitors to the login page, and
 * the login and code-entry pages send signed-in members home.
 */
module RouteGuard {
  import opened JsText

  /**
   * The request URL: its pathname, and everything else about it (scheme,
   * host, query) that a redirect keeps.
   */
  datatype Url = Url(pathname: string, rest: string)

  /** A redirect to a URL, or letting the request through to the page. */
  datatype Decision = Redirect(target: Url) | PassThrough

  const LoginPath := "/login"
  const HomePath := "/"

  /** The list of protected paths holds only "/"; every "/add-movie..." path is protected too. */
  predicate IsProtectedPath(pathname: string): (b: bool)
    ensures pathname == HomePath ==> b
    ensures b ==> |pathname| >= 1 && pathname[0] == '/' && (|pathname| == 1 || pathname[1] == 'a')
  {
    pathname == "/" || StartsWith(pathname, "/add-movie")
  }

  /** The login and code-entry pages, matched by prefix. */
  predicate IsAuthPath(pathname: string): (b: bool)
    ensures pathname == LoginPath ==> b
    ensures b ==> |pathname| >= 6 && pathname[0] == '/' && (pathname[1] == 'l' || pathname[1] == 'v')
  {
    StartsWith(pathname, "/login") || StartsWith(pathname, "/verify")
  }

  /** The redirect decision of the guard, given whether the session has a user. */
  function Route(url: Url, signedIn: bool): (d: Decision)
    ensures d == Redirect(url.(pathname := LoginPath)) <==> IsProtectedPath(url.pathname) && !signedIn
    ensures d == Redirect(url.(pathname := HomePath)) <==> IsAuthPath(url.pathname) && signedIn
    ensures d.PassThrough? <==>
      !(IsProtectedPath(url.pathname) && !signedIn) && !(IsAuthPath(url.pathname) && signedIn)
    ensures d.Redirect? ==> d.target.rest == url.rest
  {
    NoPathIsBoth(url.pathname);
    if IsProtectedPath(url.pathname) && !signedIn then Redirect(url.(pathname := LoginPath))
    else if IsAuthPath(url.pathname) && signedIn then Redirect(url.(pathname := HomePath))
    else PassThrough
  }

  /** No pathname is both a protected page and a login page. */
  lemma NoPathIsBoth(pathname: string)
    ensures !(IsProtectedPath(pathname) && IsAuthPath(pathname))
  {
    if StartsWith(pathname, "/add-movie") {
      assert pathname[1] == 'a';
    }
  }

  /** Following a redirect under the same session lets the request through: no loops. */
  lemma NoRedirectLoop(url: Url, signedIn: bool)
    ensures Route(url, signedIn).Redirect? ==> Route(Route(url, signedIn).target, signedIn) == PassThrough
  {
    var d := Route(url, signedIn);
    if d.Redirect? {
      var p := d.target.pathname;
      if signedIn {
        assert p == "/";
        assert !StartsWith(p, "/login") && !StartsWith(p, "/verify");
      } else {
        assert p == "/login";
        assert !StartsWith(p, "/add-movie") by {
          assert p[1] != "/add-movie"[1];
        }
      }
    }
  }

  /** "/login-x" and "/verify/anything" count as login pages, because the match is by prefix. */
  lemma AuthPathIsPrefixMatch(suffix: string)
    ensures IsAuthPath("/login" + suffix) && IsAuthPath("/verify" + suffix)
  {
    assert ("/login" + suffix)[..6] == "/login";
    assert ("/verify" + suffix)[..7] == "/verify";
  }
}

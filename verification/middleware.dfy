/**
 * The request gate of middleware.ts: the callback handed to `auth(...)` decides, from the
 * request's pathname and query, its `next` parameter and the session, whether the request
 * goes through or is redirected. The route matcher exported as `config` decides which
 * requests reach the callback at all.
 */
module Middleware {
  import opened Wrappers
  import opened Strings

  /** The session `req.auth`: absent when nobody is logged in; the account type is optional. */
  datatype Session = Session(accountType: Option<string>)

  /**
   * What the callback answers: `return;` lets the request through, `NextResponse.redirect`
   * sends it to `location`, with a `next` query parameter when one is set.
   */
  datatype Decision = Pass | Redirect(location: string, next: Option<string>)

  const LOGIN := "/auth/login"
  const REGISTER := "/auth/register"

  /** `publicRoutes`. */
  predicate IsPublic(pathname: string) {
    pathname == "/" || pathname == LOGIN || pathname == REGISTER
  }

  predicate IsAuthPage(pathname: string) {
    StartsWith(pathname, "/auth/")
  }

  /** `/\.[\w]+$/`: a dot followed by one or more word characters at the very end. */
  predicate HasExtension(pathname: string) {
    exists i :: 0 <= i < |pathname| - 1 && pathname[i] == '.' &&
      forall j :: i < j < |pathname| ==> IsWordChar(pathname[j])
  }

  /** The API routes and static assets the gate lets through whatever the session. */
  predicate Allowlisted(pathname: string) {
    StartsWith(pathname, "/api/s3/") ||
    StartsWith(pathname, "/api/profiles3") ||
    pathname == "/api/museums" ||
    StartsWith(pathname, "/api/museums/") ||
    StartsWith(pathname, "/api/collections/") ||
    pathname == "/api/collections" ||
    StartsWith(pathname, "/api/auth") ||
    StartsWith(pathname, "/_next/") ||
    StartsWith(pathname, "/static/") ||
    StartsWith(pathname, "/favicon") ||
    HasExtension(pathname)
  }

  /** Where a logged-in visitor of an auth page lands when no `next` is given. */
  function RoleHome(role: Option<string>): (home: string)
    ensures role == Some("ARTIST") ==> home == "/artist"
    ensures role == Some("CURATOR") ==> home == "/curator"
    ensures role == Some("MUSEUM_ADMIN") ==> home == "/museum"
    ensures role !in {Some("ARTIST"), Some("CURATOR"), Some("MUSEUM_ADMIN")} ==> home == "/"
  {
    if role == Some("ARTIST") then "/artist"
    else if role == Some("CURATOR") then "/curator"
    else if role == Some("MUSEUM_ADMIN") then "/museum"
    else "/"
  }

  /** The role gates: each area is a prefix, and the account type it needs. */
  predicate RoleAllowed(pathname: string, role: Option<string>) {
    && (StartsWith(pathname, "/curator") ==> role == Some("CURATOR"))
    && (StartsWith(pathname, "/museum") ==> role == Some("MUSEUM_ADMIN"))
    && (StartsWith(pathname, "/artist") ==> role == Some("ARTIST"))
  }

  /** The `auth((req) => ...)` callback. */
  function Gate(pathname: string, search: string, nextParam: Option<string>, session: Option<Session>): (d: Decision)
    ensures d.Redirect? ==>
      (|| d.location == "/" || d.location == LOGIN
       || (nextParam.Some? && d.location == nextParam.value)
       || (session.Some? && d.location == RoleHome(session.value.accountType)))
  {
    if Allowlisted(pathname) then Pass
    else if IsAuthPage(pathname) && session.Some? then
      Redirect(Or(nextParam, Some(RoleHome(session.value.accountType))).value, None)
    else if IsPublic(pathname) || IsAuthPage(pathname) then Pass
    else if session.None? then Redirect(LOGIN, Some(pathname + search))
    else
      var role := session.value.accountType;
      if StartsWith(pathname, "/curator") && role != Some("CURATOR") then Redirect("/", None)
      else if StartsWith(pathname, "/museum") && role != Some("MUSEUM_ADMIN") then Redirect("/", None)
      else if StartsWith(pathname, "/artist") && role != Some("ARTIST") then Redirect("/", None)
      else Pass
  }

  /** The whole decision table: when a request goes through, and otherwise it is redirected. */
  lemma GatePassIff(pathname: string, search: string, nextParam: Option<string>, session: Option<Session>)
    ensures Gate(pathname, search, nextParam, session) == Pass <==>
      Allowlisted(pathname) ||
      (!(IsAuthPage(pathname) && session.Some?) &&
       (IsPublic(pathname) || IsAuthPage(pathname) || (session.Some? && RoleAllowed(pathname, session.value.accountType))))
  {
  }

  /** Allowlisted paths go through, logged in or not. */
  lemma AllowlistFirst(pathname: string, search: string, nextParam: Option<string>, session: Option<Session>)
    requires Allowlisted(pathname)
    ensures Gate(pathname, search, nextParam, session) == Pass
  {
  }

  /** A logged-in visit to an auth page goes to a non-empty `next`, else to the role's home. */
  lemma AuthPageBounce(pathname: string, search: string, nextParam: Option<string>, session: Session)
    requires !Allowlisted(pathname) && IsAuthPage(pathname)
    ensures Truthy(nextParam) ==> Gate(pathname, search, nextParam, Some(session)) == Redirect(nextParam.value, None)
    ensures !Truthy(nextParam) ==> Gate(pathname, search, nextParam, Some(session)) == Redirect(RoleHome(session.accountType), None)
  {
  }

  /** Public pages and auth pages go through for a visitor who is not bounced. */
  lemma PublicPasses(pathname: string, search: string, nextParam: Option<string>, session: Option<Session>)
    requires IsPublic(pathname) || IsAuthPage(pathname)
    requires !(IsAuthPage(pathname) && session.Some?)
    ensures Gate(pathname, search, nextParam, session) == Pass
  {
  }

  /** Anywhere else, a visitor who is not logged in is sent to the login page, remembering where they were going. */
  lemma LoginRequired(pathname: string, search: string, nextParam: Option<string>)
    requires !Allowlisted(pathname) && !IsPublic(pathname) && !IsAuthPage(pathname)
    ensures Gate(pathname, search, nextParam, None) == Redirect(LOGIN, Some(pathname + search))
  {
  }

  /**
   * For a logged-in visitor off the allowlist, public and auth pages, the gate is exactly
   * the role check: through when the role fits every area prefix, else back to "/".
   */
  lemma RoleGates(pathname: string, search: string, nextParam: Option<string>, session: Session)
    requires !Allowlisted(pathname) && !IsPublic(pathname) && !IsAuthPage(pathname)
    ensures RoleAllowed(pathname, session.accountType) ==> Gate(pathname, search, nextParam, Some(session)) == Pass
    ensures !RoleAllowed(pathname, session.accountType) ==> Gate(pathname, search, nextParam, Some(session)) == Redirect("/", None)
  {
  }

  /** A path lies in at most one role area, so the order of the three gates does not matter. */
  lemma {:induction false} AreasDisjoint(pathname: string)
    ensures !(StartsWith(pathname, "/curator") && StartsWith(pathname, "/museum"))
    ensures !(StartsWith(pathname, "/curator") && StartsWith(pathname, "/artist"))
    ensures !(StartsWith(pathname, "/museum") && StartsWith(pathname, "/artist"))
  {
    if StartsWith(pathname, "/curator") {
      assert pathname[1] == 'c';
    } else if StartsWith(pathname, "/museum") {
      assert pathname[1] == 'm';
    }
  }

  /** The gates are prefix tests: "/artistic" is an artist area like "/artist". */
  lemma ArtisticIsGated(session: Session)
    requires session.accountType != Some("ARTIST")
    ensures Gate("/artistic", "", None, Some(session)) == Redirect("/", None)
  {
    assert StartsWith("/artistic", "/artist");
    assert !HasExtension("/artistic");
    assert "/artistic"[..6][2] != "/auth/"[2];
  }

  /**
   * Every redirect the gate chooses itself (not a `next` it was handed) lands on a page
   * the gate then lets through for the same visitor: there is no redirect loop.
   */
  lemma RedirectsSettle(pathname: string, search: string, session: Option<Session>)
    ensures var d := Gate(pathname, search, None, session);
      d.Redirect? ==> Gate(d.location, "", d.next, session) == Pass
  {
    var d := Gate(pathname, search, None, session);
    if d.Redirect? {
      assert !HasExtension("/");
      assert !HasExtension(LOGIN);
      if session.Some? {
        var role := session.value.accountType;
        var home := RoleHome(role);
        if d.location == home && home != "/" {
          assert StartsWith(home, home);
          assert !HasExtension(home);
          assert home[..6][2] != "/auth/"[2] || home[..6][1] != "/auth/"[1];
          AreasDisjoint(home);
        }
      }
    }
  }

  /**
   * The route matcher `/((?!_next/static|_next/image|favicon.ico|images|public).*)`: the
   * callback runs only for paths whose text after the leading "/" does not start with one
   * of these words (the `.` of `favicon.ico` is any character).
   */
  predicate Matched(pathname: string) {
    var rest := if pathname != [] && pathname[0] == '/' then pathname[1..] else pathname;
    !(StartsWith(rest, "_next/static") || StartsWith(rest, "_next/image") ||
      (StartsWith(rest, "favicon") && |rest| >= 11 && !IsLineTerminator(rest[7]) && rest[8..11] == "ico") ||
      StartsWith(rest, "images") || StartsWith(rest, "public"))
  }

  /** The whole middleware: unmatched paths never reach the gate. */
  function Middleware(pathname: string, search: string, nextParam: Option<string>, session: Option<Session>): (d: Decision)
    ensures !Matched(pathname) ==> d == Pass
    ensures Matched(pathname) ==> d == Gate(pathname, search, nextParam, session)
  {
    if Matched(pathname) then Gate(pathname, search, nextParam, session) else Pass
  }

  /**
   * The matcher lets through, unauthenticated, every path under "/images" or "/public",
   * including ones the gate would send to the login page, such as "/publications".
   */
  lemma UnmatchedSkipsLogin()
    ensures Gate("/publications", "", None, None) == Redirect(LOGIN, Some("/publications"))
    ensures Middleware("/publications", "", None, None) == Pass
  {
    assert !HasExtension("/publications");
    assert StartsWith("publications", "public");
    var p := "/publications";
    assert p[..6][1] != "/auth/"[1];
    assert p[..8][1] != "/api/s3/"[1];
    assert p[..13][1] != "/api/museums/"[1];
    assert p[..9][1] != "/api/auth"[1];
    assert p[..7][1] != "/_next/"[1];
    assert p[..8][1] != "/static/"[1];
    assert p[..8][1] != "/favicon"[1];
    assert p[..8][1] != "/curator"[1];
    assert p[..7][1] != "/museum"[1];
    assert p[..7][1] != "/artist"[1];
    assert p + "" == p;
  }
}

/** The static route tables of src/lib/routes.ts, with the exact-membership
    and prefix tests a request path is checked against. */
module Routes {

  /** Pages reachable with or without a session. */
  const PublicRoutes: seq<string> := ["/verify-email"]

  /** Sign-in pages, for visitors without a session. */
  const AuthRoutes: seq<string> := ["/login", "/register", "/forgot-password", "/reset-password"]

  /** Every path under this prefix belongs to the authentication API. */
  const ApiAuthPrefix: string := "/api/auth"

  /** Where a user is sent after signing in. */
  const DefaultLoginRedirect: string := "/"

  /** An absolute path: it begins with "/". */
  predicate Rooted(path: string)
  {
    |path| > 0 && path[0] == '/'
  }

  /** The path lies under the authentication API prefix: its first
      characters are exactly "/api/auth". */
  predicate IsApiAuthRoute(path: string): (b: bool)
    ensures b <==> |path| >= |ApiAuthPrefix| && path[..|ApiAuthPrefix|] == ApiAuthPrefix
    ensures b ==> Rooted(path)
  {
    ApiAuthPrefix <= path
  }

  /** A path whose second character is not the 'a' of "/api" is not under
      the API prefix. */
  lemma OutsideApiPrefix(path: string)
    requires |path| > 1 && path[1] != 'a'
    ensures !IsApiAuthRoute(path)
  {
  }

  /** No listed page is under the API prefix. */
  lemma ListedOutsideApiPrefix()
    ensures forall p :: p in PublicRoutes + AuthRoutes ==> !IsApiAuthRoute(p)
  {
    forall p | p in PublicRoutes + AuthRoutes
      ensures !IsApiAuthRoute(p)
    {
      OutsideApiPrefix(p);
    }
  }

  /** The path is one of the sign-in pages, matched exactly. Such a path is
      absolute and is not the post-login target. */
  predicate IsAuthRoute(path: string): (b: bool)
    ensures b ==> Rooted(path) && path != DefaultLoginRedirect
  {
    path in AuthRoutes
  }

  /** The path is a public page, matched exactly. Such a path is absolute,
      is not a sign-in page and is not the post-login target. */
  predicate IsPublicRoute(path: string): (b: bool)
    ensures b ==> Rooted(path) && !IsAuthRoute(path) && path != DefaultLoginRedirect
  {
    path in PublicRoutes
  }

  /** The three tests never overlap: a sign-in page and a public page are
      never under the API prefix, and no page is both public and a sign-in
      page. */
  lemma RouteTestsDisjoint()
    ensures forall p :: IsAuthRoute(p) ==> !IsApiAuthRoute(p) && !IsPublicRoute(p)
    ensures forall p :: IsPublicRoute(p) ==> !IsApiAuthRoute(p) && !IsAuthRoute(p)
  {
    ListedOutsideApiPrefix();
  }

  /** The tables hold exactly the listed paths, in the listed order. */
  lemma RouteTables()
    ensures |PublicRoutes| == 1 && PublicRoutes[0] == "/verify-email"
    ensures |AuthRoutes| == 4
    ensures AuthRoutes[0] == "/login" && AuthRoutes[1] == "/register"
    ensures AuthRoutes[2] == "/forgot-password" && AuthRoutes[3] == "/reset-password"
  {
  }

  /** No path is listed twice, within the sign-in table or across the two
      tables (the public table has a single entry). */
  lemma RouteTablesDistinct()
    ensures forall i, j :: 0 <= i < j < |AuthRoutes| ==> AuthRoutes[i] != AuthRoutes[j]
    ensures forall p :: p in PublicRoutes ==> p !in AuthRoutes
  {
  }

  /** Every listed path, the API prefix and the post-login target are
      absolute; neither table holds the post-login target or a path under
      the API prefix. */
  lemma RoutesRooted()
    ensures forall p :: p in PublicRoutes + AuthRoutes ==> Rooted(p) && !IsApiAuthRoute(p)
    ensures Rooted(ApiAuthPrefix) && Rooted(DefaultLoginRedirect)
    ensures DefaultLoginRedirect !in PublicRoutes + AuthRoutes
  {
    ListedOutsideApiPrefix();
  }

  /** How sample paths fall: "/login" is a sign-in page, "/verify-email" is
      public, "/api/auth/callback" is under the API prefix, and "/dashboard"
      is none of these. */
  lemma SamplePaths()
    ensures IsAuthRoute("/login") && !IsPublicRoute("/login") && !IsApiAuthRoute("/login")
    ensures IsPublicRoute("/verify-email")
    ensures IsApiAuthRoute("/api/auth/callback") && !IsAuthRoute("/api/auth/callback") && !IsPublicRoute("/api/auth/callback")
    ensures !IsAuthRoute("/dashboard") && !IsPublicRoute("/dashboard") && !IsApiAuthRoute("/dashboard")
  {
    OutsideApiPrefix("/dashboard");
  }
}

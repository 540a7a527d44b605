/**
 * The front end's router: three routes with their `meta` (title, whether they need a login)
 * and the global `beforeEach` guard, which sets the page title and sends visitors without a
 * stored token from a protected route to `/login`.
 */
module Router {
  import opened Wrappers

  /** A route's `meta`: an optional title and an optional `auth` flag; a path no route matches has neither. */
  datatype Meta = Meta(title: Option<string>, auth: Option<bool>)

  /** A route as matched, with its children's paths joined onto their parent's. */
  datatype Route = Route(path: string, name: string, meta: Meta)

  const DefaultTitle: string := "Mi Aplicación"
  const LoginPath: string := "/login"

  /** `home` and `users` under the authenticated layout, `login` under the guest layout. */
  const Routes: seq<Route> := [
    Route("/", "home", Meta(Some("Mi Aplicación"), Some(true))),
    Route("/users", "users", Meta(Some("Usuarios"), Some(true))),
    Route(LoginPath, "login", Meta(Some("Iniciar sesión"), Some(false)))
  ]

  /** The `meta` of the first route with exactly this path; an unmatched path has an empty `meta`. */
  function Resolve(path: string, routes: seq<Route>): (m: Meta)
    ensures (forall i :: 0 <= i < |routes| ==> routes[i].path != path) ==> m == Meta(None, None)
    ensures (exists i :: 0 <= i < |routes| && routes[i].path == path) ==> exists i :: 0 <= i < |routes| && routes[i].path == path && m == routes[i].meta
  {
    if routes == [] then Meta(None, None)
    else if routes[0].path == path then routes[0].meta
    else
      var m := Resolve(path, routes[1..]);
      assert (exists i :: 0 <= i < |routes| && routes[i].path == path) ==> exists i :: 0 <= i < |routes[1..]| && routes[1..][i].path == path;
      m
  }

  /** `meta.auth` is truthy. */
  predicate RequiresAuth(m: Meta) {
    m.auth == Some(true)
  }

  /** The stored `token` item is truthy: present and not empty. */
  predicate HasToken(token: Option<string>) {
    token.Some? && token.value != ""
  }

  /** `to.meta.title || 'Mi Aplicación'`. */
  function Title(m: Meta): (t: string)
    ensures m.title.Some? && m.title.value != "" ==> t == m.title.value
    ensures m.title.None? || m.title.value == "" ==> t == DefaultTitle
  {
    if m.title.Some? && m.title.value != "" then m.title.value else DefaultTitle
  }

  /** The one call to `next` a navigation makes: `next()` or `next('/login')`. */
  datatype NextCall = Proceed | Redirect(path: string)

  /** Redirect to the login page exactly when the route needs a login and no token is stored. */
  function Guard(m: Meta, token: Option<string>): (n: NextCall)
    ensures n.Redirect? <==> RequiresAuth(m) && !HasToken(token)
    ensures n.Redirect? ==> n.path == LoginPath
  {
    if RequiresAuth(m) && !HasToken(token) then Redirect(LoginPath) else Proceed
  }

  /** The page the guard writes the title to. */
  class Document {
    var title: string

    constructor (title: string)
      ensures this.title == title
    {
      this.title := title;
    }
  }

  /** `router.beforeEach`: set the title, then make the single `next` call. */
  method BeforeEach(document: Document, to: Meta, storedToken: Option<string>) returns (next: NextCall)
    modifies document
    ensures document.title == Title(to)
    ensures next == Guard(to, storedToken)
  {
    document.title := if to.title.Some? && to.title.value != "" then to.title.value else DefaultTitle;
    var requiresAuth := to.auth == Some(true);
    if requiresAuth && !(storedToken.Some? && storedToken.value != "") {
      return Redirect(LoginPath);
    }
    next := Proceed;
  }

  /** The login page is never redirected, token or not: the guard cannot loop. */
  lemma LoginNeverRedirected(token: Option<string>)
    ensures Guard(Resolve(LoginPath, Routes), token) == Proceed
  {
    assert Routes[0].path != LoginPath && Routes[1].path != LoginPath;
    assert Routes[1..][1..][0].path == LoginPath;
  }

  /** A redirect always lands on a page the guard lets through. */
  lemma RedirectLandsOnOpenPage(m: Meta, token: Option<string>)
    ensures Guard(m, token).Redirect? ==> Guard(Resolve(Guard(m, token).path, Routes), token) == Proceed
  {
    LoginNeverRedirected(token);
  }

  /** `home` and `users` let a visitor through exactly when a token is stored. */
  lemma ProtectedRoutes(path: string, token: Option<string>)
    requires path == "/" || path == "/users"
    ensures Guard(Resolve(path, Routes), token) == if HasToken(token) then Proceed else Redirect(LoginPath)
  {
    if path == "/" {
      assert Routes[0].path == path;
    } else {
      assert Routes[0].path != path && Routes[1].path == path;
    }
  }

  /** A path no route matches is let through under the default title. */
  lemma UnknownPathOpen(path: string, token: Option<string>)
    requires forall i :: 0 <= i < |Routes| ==> Routes[i].path != path
    ensures Guard(Resolve(path, Routes), token) == Proceed
    ensures Title(Resolve(path, Routes)) == DefaultTitle
  {
  }
}

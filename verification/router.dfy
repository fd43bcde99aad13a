/** The router's global `beforeEach` guard: an unauthenticated user heading
    for a route any of whose matched records is marked `authenticated` is
    sent to the route named 'authentication'. Which records a location
    matches is the router library's business; the guard receives them. */
module Router {
  import opened Wrappers
  import opened Routes

  /** What the guard returns: nothing (the navigation proceeds) or a
      redirect to a named route. */
  datatype GuardResult = Proceed | Redirect(name: string)

  /** `matched.some(record => record.meta.authenticated)`. */
  function SomeAuthenticated(matched: seq<RouteRecord>): (b: bool)
    ensures b <==> exists i :: 0 <= i < |matched| && matched[i].authenticated
  {
    if |matched| == 0 then false
    else matched[0].authenticated || SomeAuthenticated(matched[1..])
  }

  /** The guard. It redirects exactly when the user is not authenticated and
      a matched record requires authentication, and then always to the
      route named 'authentication'. */
  function BeforeEach(isAuthenticated: bool, matched: seq<RouteRecord>): (r: GuardResult)
    ensures r.Redirect? <==>
              !isAuthenticated && exists i :: 0 <= i < |matched| && matched[i].authenticated
    ensures r.Redirect? ==> r.name == "authentication"
  {
    if !isAuthenticated && SomeAuthenticated(matched) then Redirect("authentication") else Proceed
  }

  /** An authenticated user is never redirected, and no one is redirected
      from routes whose records carry no `authenticated` mark. */
  lemma GuardProceeds(isAuthenticated: bool, matched: seq<RouteRecord>)
    ensures isAuthenticated ==> BeforeEach(isAuthenticated, matched) == Proceed
    ensures (forall i :: 0 <= i < |matched| ==> !matched[i].authenticated) ==>
              BeforeEach(isAuthenticated, matched) == Proceed
  {
  }

  /** Whatever the guard redirects to is a route of the table that the guard
      itself lets an unauthenticated user through to, so it cannot loop. */
  lemma RedirectTargetIsReachable(isAuthenticated: bool, matched: seq<RouteRecord>)
    requires BeforeEach(isAuthenticated, matched).Redirect?
    ensures
      var target := FindByName(Flatten(AppRoutes), BeforeEach(isAuthenticated, matched).name);
      target == Some(AuthenticationRoute)
      && BeforeEach(false, [MainLayout, target.value]) == Proceed
  {
    AuthenticationIsOpen();
  }

  /** Unauthenticated visits to the profile and stream pages are redirected;
      visits to a single artwork are not. */
  lemma ProtectedPagesRedirect()
    ensures BeforeEach(false, [MainLayout, ProfileRoute]) == Redirect("authentication")
    ensures BeforeEach(false, [MainLayout, StreamRoute]) == Redirect("authentication")
    ensures BeforeEach(false, [MainLayout, ArtworkRoute]) == Proceed
  {
    assert [MainLayout, ProfileRoute][1].authenticated;
    assert [MainLayout, StreamRoute][1].authenticated;
  }
}

/** The application's route table as data: each record's path, optional
    name, whether its `meta.authenticated` flag is set, an optional redirect
    to a named route, and its child records. Components are not modelled. */
module Routes {
  import opened Wrappers
  import opened Seqs

  datatype RouteRecord = RouteRecord(
    path: string,
    name: Option<string>,
    authenticated: bool,
    redirect: Option<string>,
    children: seq<RouteRecord>)

  function Page(path: string, name: Option<string>, authenticated: bool): RouteRecord {
    RouteRecord(path, name, authenticated, None, [])
  }

  const DefaultChild := RouteRecord("", None, false, Some("profile"), [])
  const AuthenticationRoute := Page("/authentication", Some("authentication"), false)
  const ProfileRoute := Page("/profile", Some("profile"), true)
  const StreamRoute := Page("/stream", None, true)
  const ArtworkRoute := Page("/artworks/:artworkId", None, false)

  /** The layout route: it carries no meta and hosts every page. */
  const MainLayout := RouteRecord("/", None, false, None,
    [DefaultChild, AuthenticationRoute, ProfileRoute, StreamRoute, ArtworkRoute])

  const CatchAll := Page("/:catchAll(.*)*", None, false)

  const AppRoutes: seq<RouteRecord> := [MainLayout, CatchAll]

  /** Every record of a table, parents before their children. */
  function Flatten(rs: seq<RouteRecord>): (r: seq<RouteRecord>)
    ensures forall x :: x in rs ==> x in r
    decreases rs
  {
    if |rs| == 0 then []
    else [rs[0]] + Flatten(rs[0].children) + Flatten(rs[1..])
  }

  /** The record with a given name, if any (names are unique in a table). */
  function FindByName(rs: seq<RouteRecord>, name: string): (r: Option<RouteRecord>)
    ensures r.Some? ==> r.value in rs && r.value.name == Some(name)
    ensures r.None? ==> forall x :: x in rs ==> x.name != Some(name)
  {
    if |rs| == 0 then None
    else if rs[0].name == Some(name) then Some(rs[0])
    else FindByName(rs[1..], name)
  }

  /** The record with a given path pattern, if any. */
  function FindByPath(rs: seq<RouteRecord>, path: string): (r: Option<RouteRecord>)
    ensures r.Some? ==> r.value in rs && r.value.path == path
    ensures r.None? ==> forall x :: x in rs ==> x.path != path
  {
    if |rs| == 0 then None
    else if rs[0].path == path then Some(rs[0])
    else FindByPath(rs[1..], path)
  }

  /** The table flattened: the layout, its five children in order, the catch-all. */
  lemma FlatTable()
    ensures Flatten(AppRoutes) ==
              [MainLayout, DefaultChild, AuthenticationRoute, ProfileRoute, StreamRoute, ArtworkRoute, CatchAll]
  {
    var kids := MainLayout.children;
    assert Flatten(kids[4..]) == [ArtworkRoute] by { assert kids[4..][1..] == []; }
    assert Flatten(kids[3..]) == [StreamRoute, ArtworkRoute] by { assert kids[3..][1..] == kids[4..]; }
    assert Flatten(kids[2..]) == [ProfileRoute, StreamRoute, ArtworkRoute] by { assert kids[2..][1..] == kids[3..]; }
    assert Flatten(kids[1..]) == [AuthenticationRoute, ProfileRoute, StreamRoute, ArtworkRoute] by {
      assert kids[1..][1..] == kids[2..];
    }
    assert Flatten(kids) == [DefaultChild, AuthenticationRoute, ProfileRoute, StreamRoute, ArtworkRoute];
    assert Flatten(AppRoutes[1..]) == [CatchAll] by { assert AppRoutes[1..][1..] == []; }
  }

  /** A lookup finds the first record with the path. */
  lemma {:induction false} FindByPathFirst(rs: seq<RouteRecord>, i: int, path: string)
    requires 0 <= i < |rs| && rs[i].path == path
    requires forall j :: 0 <= j < i ==> rs[j].path != path
    ensures FindByPath(rs, path) == Some(rs[i])
    decreases i
  {
    if i > 0 {
      FindByPathFirst(rs[1..], i - 1, path);
    }
  }

  /** A lookup finds the first record with the name. */
  lemma {:induction false} FindByNameFirst(rs: seq<RouteRecord>, i: int, name: string)
    requires 0 <= i < |rs| && rs[i].name == Some(name)
    requires forall j :: 0 <= j < i ==> rs[j].name != Some(name)
    ensures FindByName(rs, name) == Some(rs[i])
    decreases i
  {
    if i > 0 {
      FindByNameFirst(rs[1..], i - 1, name);
    }
  }

  /** The profile page requires authentication. */
  lemma ProfileIsProtected()
    ensures FindByPath(Flatten(AppRoutes), "/profile") == Some(ProfileRoute)
    ensures ProfileRoute.authenticated
  {
    FlatTable();
    var f := Flatten(AppRoutes);
    assert f[0].path != "/profile";
    assert f[1].path != "/profile";
    assert f[2].path != "/profile";
    FindByPathFirst(f, 3, "/profile");
  }

  /** The stream page requires authentication. */
  lemma StreamIsProtected()
    ensures FindByPath(Flatten(AppRoutes), "/stream") == Some(StreamRoute)
    ensures StreamRoute.authenticated
  {
    FlatTable();
    var f := Flatten(AppRoutes);
    assert f[0].path != "/stream";
    assert f[1].path != "/stream";
    assert f[2].path != "/stream";
    assert f[3].path != "/stream";
    FindByPathFirst(f, 4, "/stream");
  }

  /** The authentication page, the guard's redirect target, is open to
      everyone, and so is the layout that hosts it. */
  lemma AuthenticationIsOpen()
    ensures FindByName(Flatten(AppRoutes), "authentication") == Some(AuthenticationRoute)
    ensures !AuthenticationRoute.authenticated && !MainLayout.authenticated
  {
    FlatTable();
    FindByNameFirst(Flatten(AppRoutes), 2, "authentication");
  }

  /** A single artwork's page is open to everyone. */
  lemma ArtworkIsOpen()
    ensures FindByPath(Flatten(AppRoutes), "/artworks/:artworkId") == Some(ArtworkRoute)
    ensures !ArtworkRoute.authenticated
  {
    FlatTable();
    var f := Flatten(AppRoutes);
    var p := "/artworks/:artworkId";
    assert f[0].path != p;
    assert f[1].path != p;
    assert f[2].path != p;
    assert f[3].path != p;
    assert f[4].path != p;
    FindByPathFirst(f, 5, p);
  }

  /** The layout's empty child path redirects to a route name the table defines. */
  lemma DefaultRedirectResolves()
    ensures MainLayout.children[0].path == "" && MainLayout.children[0].redirect == Some("profile")
    ensures FindByName(Flatten(AppRoutes), "profile") == Some(ProfileRoute)
  {
    FlatTable();
    FindByNameFirst(Flatten(AppRoutes), 3, "profile");
  }

  /** The catch-all record is the last top-level route, after every real page. */
  lemma CatchAllIsLast()
    ensures Last(AppRoutes) == CatchAll && CatchAll.path == "/:catchAll(.*)*"
    ensures forall i :: 0 <= i < |AppRoutes| - 1 ==> AppRoutes[i].path != CatchAll.path
  {
  }
}

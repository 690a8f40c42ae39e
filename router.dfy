/**
 * router.js: the route table (which records need a signed-in user) and
 * the `beforeEach` guard, which sends a visitor without a user away
 * from protected routes. Paths are matched segment by segment; the
 * first record that matches wins, and the catch-all record redirects
 * to `/404`.
 */
module Router {
  import opened Wrappers
  import opened Helpers

  /** One segment of a record's `path`: a literal, or a parameter such as `:id`, which matches any non-empty segment. */
  datatype Segment = Lit(text: string) | Param

  /** A record's `path`: its `/`-separated segments, or the catch-all `*`. */
  datatype Pattern = Segments(segments: seq<Segment>) | Wildcard

  /** One route record: its path, its name, its `meta.requireAuth` and `meta.guestOnly` flags and its `redirect`. */
  datatype Route = Route(pattern: Pattern, name: Option<string>, requireAuth: bool, guestOnly: bool, redirect: Option<string>)

  /** What the guard passes to `next`: nothing, or a location. */
  datatype Next = Proceed | NextTo(location: string)

  function Page(segments: seq<Segment>, name: string, requireAuth: bool): Route {
    Route(Segments(segments), Some(name), requireAuth, false, None)
  }

  /** The catch-all record's `redirect`. */
  const NotFoundPath: string := "/404"

  /** The number of records in the table. */
  const RouteCount: nat := 11

  /** The table, record by record in order. */
  function RouteAt(i: nat): Route
    requires i < RouteCount
  {
    if i == 0 then Page([Lit(""), Lit("")], "home", false)                                  // '/'
    else if i == 1 then Page([Lit(""), Lit("about")], "about", false)                       // '/about'
    else if i == 2 then Page([Lit(""), Lit("dashboard")], "dashboard", true)                // '/dashboard'
    else if i == 3 then Page([Lit(""), Lit("map"), Lit("add")], "map-add", true)            // '/map/add'
    else if i == 4 then Page([Lit(""), Lit("map"), Param], "map-detail", true)              // '/map/:id'
    else if i == 5 then Page([Lit(""), Lit("map"), Param, Lit("edit")], "map-editor", true) // '/map/:id/edit'
    else if i == 6 then Page([Lit(""), Lit("map"), Lit("webgl"), Param], "webglmap-detail", true) // '/map/webgl/:id'
    else if i == 7 then Page([Lit(""), Lit("map"), Lit("webgl"), Param, Lit("edit")], "webglmap-editor", true)
                                                                                            // '/map/webgl/:id/edit'
    else if i == 8 then Page([Lit(""), Lit("sign-in")], "sign-in", false)                   // '/sign-in'
    else if i == 9 then Page([Lit(""), Lit("404")], "error404", false)                      // '/404'
    else Route(Wildcard, None, false, false, Some(NotFoundPath))                            // '*'
  }

  predicate SegmentMatches(pattern: Segment, segment: string) {
    match pattern
    case Lit(text) => text == segment
    case Param => segment != ""
  }

  predicate Matches(pattern: Pattern, segments: seq<string>) {
    match pattern
    case Wildcard => true
    case Segments(ps) => |ps| == |segments| && forall i | 0 <= i < |ps| :: SegmentMatches(ps[i], segments[i])
  }

  /** The first record from position `k` on whose pattern matches. */
  function FirstMatchFrom(segments: seq<string>, k: nat): (r: Option<nat>)
    requires k <= RouteCount
    ensures r.Some? ==> k <= r.value < RouteCount && Matches(RouteAt(r.value).pattern, segments)
                        && forall j | k <= j < r.value :: !Matches(RouteAt(j).pattern, segments)
    ensures r.None? ==> forall j | k <= j < RouteCount :: !Matches(RouteAt(j).pattern, segments)
    decreases RouteCount - k
  {
    if k == RouteCount then None
    else if Matches(RouteAt(k).pattern, segments) then Some(k)
    else FirstMatchFrom(segments, k + 1)
  }

  /** The position of the record a split path is matched against: the first that matches; the catch-all matches everything. */
  function MatchIndexOf(segments: seq<string>): (i: nat)
    ensures i < RouteCount && Matches(RouteAt(i).pattern, segments)
    ensures forall j | 0 <= j < i :: !Matches(RouteAt(j).pattern, segments)
  {
    var m := FirstMatchFrom(segments, 0);
    assert Matches(RouteAt(10).pattern, segments);
    m.value
  }

  function MatchIndex(path: string): (i: nat)
    ensures i < RouteCount
  {
    MatchIndexOf(Split(path, '/'))
  }

  /** The position of the record a navigation ends on: a matched redirect is followed to its target. */
  function ResolveIndex(path: string): (i: nat)
    ensures i < RouteCount
  {
    var i := MatchIndex(path);
    if RouteAt(i).redirect.Some? then MatchIndex(RouteAt(i).redirect.value) else i
  }

  function Resolve(path: string): Route {
    RouteAt(ResolveIndex(path))
  }

  /**
   * The `beforeEach` decision for the records `matched` and whether the current
   * user is truthy: a protected record without a user goes to `'sign-in'`, checked
   * first; a guest-only record with a user goes to `'dashboard'`; anything else proceeds.
   */
  function Guard(matched: seq<Route>, currentUser: bool): (n: Next)
    ensures n == NextTo("sign-in") <==> (exists i | 0 <= i < |matched| :: matched[i].requireAuth) && !currentUser
    ensures n == NextTo("dashboard") <==>
              !((exists i | 0 <= i < |matched| :: matched[i].requireAuth) && !currentUser)
              && (exists i | 0 <= i < |matched| :: matched[i].guestOnly) && currentUser
    ensures n == Proceed || n == NextTo("sign-in") || n == NextTo("dashboard")
  {
    var requireAuth := exists i | 0 <= i < |matched| :: matched[i].requireAuth;
    var guestOnly := exists i | 0 <= i < |matched| :: matched[i].guestOnly;
    if requireAuth && !currentUser then NextTo("sign-in")
    else if guestOnly && currentUser then NextTo("dashboard")
    else Proceed
  }

  /** The guard for a navigation to `path`: the matched records are the resolved record alone. */
  function Navigate(path: string, currentUser: bool): Next {
    Guard([Resolve(path)], currentUser)
  }

  /** Exactly the six records from `dashboard` to `webglmap-editor` require a user, and no record is guest-only. */
  lemma ProtectedRoutes()
    ensures forall i | 0 <= i < RouteCount :: RouteAt(i).requireAuth <==> 2 <= i < 8
    ensures forall i | 0 <= i < RouteCount :: !RouteAt(i).guestOnly
    ensures RouteAt(2).name == Some("dashboard") && RouteAt(3).name == Some("map-add")
            && RouteAt(4).name == Some("map-detail") && RouteAt(5).name == Some("map-editor")
            && RouteAt(6).name == Some("webglmap-detail") && RouteAt(7).name == Some("webglmap-editor")
  {
  }

  /** With this table the guard only ever proceeds or sends to `'sign-in'`, and it does the latter exactly for a protected record without a user. */
  lemma GuardOnTable(path: string, currentUser: bool)
    ensures Navigate(path, currentUser) != NextTo("dashboard")
    ensures Navigate(path, currentUser) == NextTo("sign-in") <==> Resolve(path).requireAuth && !currentUser
  {
    ProtectedRoutes();
    var r := Resolve(path);
    assert !r.guestOnly;
    assert (exists i | 0 <= i < 1 :: [r][i].requireAuth) <==> r.requireAuth;
    assert !(exists i | 0 <= i < 1 :: [r][i].guestOnly);
  }

  /** The position of the first match, told by which records match. */
  lemma MatchIndexIs(segments: seq<string>, k: nat)
    requires k < RouteCount && Matches(RouteAt(k).pattern, segments)
    requires forall j | 0 <= j < k :: !Matches(RouteAt(j).pattern, segments)
    ensures MatchIndexOf(segments) == k
  {
  }

  lemma SplitNotFound()
    ensures Split(NotFoundPath, '/') == ["", "404"]
  {
    assert '/' !in "404";
    SplitAtSeparator("", "404", '/');
    assert "" + "/" + "404" == "/404";
  }

  /** Splitting at the first separator. */
  lemma SplitAtSeparator(a: string, rest: string, sep: char)
    requires sep !in a
    ensures Split(a + [sep] + rest, sep) == [a] + Split(rest, sep)
  {
    var s := a + [sep] + rest;
    assert s[|a|] == sep && s[..|a|] == a;
    assert FirstIndex(s, sep) == |a|;
    assert s[|a| + 1..] == rest;
  }

  /** The redirect target `/404` resolves to the error page. */
  lemma NotFoundRecord()
    ensures MatchIndex(NotFoundPath) == 9
  {
    SplitNotFound();
    NotFoundSegments();
  }

  lemma NotFoundSegments()
    ensures MatchIndexOf(["", "404"]) == 9
  {
    var segments := ["", "404"];
    forall j | 0 <= j < 9
      ensures !Matches(RouteAt(j).pattern, segments)
    {
      assert !SegmentMatches(RouteAt(j).pattern.segments[1], segments[1]);
    }
    MatchIndexIs(segments, 9);
  }

  /** A path that reaches the catch-all ends on the error page. */
  lemma CatchAllResolvesToNotFound(path: string)
    requires MatchIndex(path) == 10
    ensures ResolveIndex(path) == 9
    ensures Resolve(path).name == Some("error404") && !Resolve(path).requireAuth
  {
    assert RouteAt(10).redirect == Some(NotFoundPath);
    NotFoundRecord();
  }

  /** A path no page record matches is redirected to the error page, and the guard lets it through. */
  lemma UnmatchedIsNotFound(path: string, currentUser: bool)
    requires forall j | 0 <= j < 10 :: !Matches(RouteAt(j).pattern, Split(path, '/'))
    ensures Resolve(path).name == Some("error404")
    ensures Navigate(path, currentUser) == Proceed
  {
    MatchIndexIs(Split(path, '/'), 10);
    CatchAllResolvesToNotFound(path);
    GuardOnTable(path, currentUser);
  }

  lemma SplitMapAdd()
    ensures Split("/map/add", '/') == ["", "map", "add"]
  {
    assert '/' !in "add";
    SplitAtSeparator("map", "add", '/');
    assert "map" + "/" + "add" == "map/add";
    SplitAtSeparator("", "map/add", '/');
    assert "" + "/" + "map/add" == "/map/add";
  }

  /** `/map/add` is listed before `/map/:id`, so it opens the add page, not a map called "add". */
  lemma MapAddBeforeMapDetail()
    ensures Resolve("/map/add").name == Some("map-add")
  {
    SplitMapAdd();
    MapAddSegments();
  }

  lemma MapAddSegments()
    ensures MatchIndexOf(["", "map", "add"]) == 3
  {
    var segments := ["", "map", "add"];
    forall j | 0 <= j < 3
      ensures !Matches(RouteAt(j).pattern, segments)
    {
    }
    MatchIndexIs(segments, 3);
  }
}

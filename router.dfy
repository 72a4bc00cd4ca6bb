/** The named routes registered in `main`, path matching against them, reverse
    URL generation (`router.Get(name).URL("id", v)`) and the
    `removeTrailingSlash` rewrite applied before dispatch. Only the declared
    table is modelled, not the router library in general. */
module Router {
  import opened Wrappers
  import opened Decimal

  datatype Method = GET | POST

  /** One `/`-separated piece of a route pattern: literal text, or the
      placeholder `{id:[0-9]+}`. */
  datatype Segment = Lit(text: string) | IdVar

  datatype Route = Route(name: string, verb: Method, pattern: seq<Segment>)

  /** The name of the only placeholder the table uses. */
  const IdKey := "id"

  /** The routes in registration order; `[]` is the pattern `/`. */
  const Routes: seq<Route> := [
    Route("home", GET, []),
    Route("about", GET, [Lit("about")]),
    Route("articles.show", GET, [Lit("articles"), IdVar]),
    Route("articles.index", GET, [Lit("articles")]),
    Route("articles.store", POST, [Lit("articles")]),
    Route("articles.create", GET, [Lit("articles"), Lit("create")]),
    Route("articles.edit", GET, [Lit("articles"), IdVar, Lit("edit")]),
    Route("articles.update", POST, [Lit("articles"), IdVar]),
    Route("articles.delete", POST, [Lit("articles"), IdVar, Lit("delete")])
  ]

  // ---------------------------------------------------------------------------
  // Paths as segment lists

  /** The segments joined with `/` between them. */
  function Join(segs: seq<string>): string {
    if |segs| == 0 then ""
    else if |segs| == 1 then segs[0]
    else segs[0] + "/" + Join(segs[1..])
  }

  /** The pieces of `s` between its `/` characters (always at least one). */
  function Split(s: string): (pieces: seq<string>)
    ensures |pieces| >= 1
  {
    if s == [] then [""]
    else if s[0] == '/' then [""] + Split(s[1..])
    else var rest := Split(s[1..]); [[s[0]] + rest[0]] + rest[1..]
  }

  predicate NoSlash(s: string) {
    forall i :: 0 <= i < |s| ==> s[i] != '/'
  }

  /** The path whose segments are `segs`: `/` for none. */
  function PathOf(segs: seq<string>): string {
    "/" + Join(segs)
  }

  /** The segments of an absolute path; `/` has none. */
  function SegmentsOf(path: string): Option<seq<string>> {
    if path == "/" then Some([])
    else if |path| > 0 && path[0] == '/' then Some(Split(path[1..]))
    else None
  }

  lemma {:induction false} SplitWord(w: string)
    requires NoSlash(w)
    ensures Split(w) == [w]
    decreases |w|
  {
    if w != [] {
      SplitWord(w[1..]);
      assert [w[0]] + w[1..] == w;
    }
  }

  lemma {:induction false} SplitWordThenSlash(w: string, rest: string)
    requires NoSlash(w)
    ensures Split(w + "/" + rest) == [w] + Split(rest)
    decreases |w|
  {
    if w == [] {
      assert w + "/" + rest == "/" + rest;
      assert ("/" + rest)[1..] == rest;
    } else {
      SplitWordThenSlash(w[1..], rest);
      assert (w + "/" + rest)[1..] == w[1..] + "/" + rest;
      assert [w[0]] + w[1..] == w;
    }
  }

  /** Splitting undoes joining when no segment contains `/`. */
  lemma {:induction false} SplitJoin(segs: seq<string>)
    requires |segs| >= 1
    requires forall k :: 0 <= k < |segs| ==> NoSlash(segs[k])
    ensures Split(Join(segs)) == segs
    decreases |segs|
  {
    if |segs| == 1 {
      SplitWord(segs[0]);
    } else {
      SplitJoin(segs[1..]);
      SplitWordThenSlash(segs[0], Join(segs[1..]));
    }
  }

  /** Reading the segments of a generated path gives back the segments, when
      none is empty or contains `/`. */
  lemma SegmentsOfPathOf(segs: seq<string>)
    requires forall k :: 0 <= k < |segs| ==> NoSlash(segs[k]) && segs[k] != ""
    ensures SegmentsOf(PathOf(segs)) == Some(segs)
  {
    if segs != [] {
      assert PathOf(segs) != "/" by {
        if |segs| == 1 {
          assert Join(segs) == segs[0];
        } else {
          assert Join(segs) == segs[0] + "/" + Join(segs[1..]);
        }
      }
      assert PathOf(segs)[1..] == Join(segs);
      SplitJoin(segs);
    }
  }

  // ---------------------------------------------------------------------------
  // Matching a request against a pattern

  /** The variables a pattern binds when it matches `segs`, as `mux.Vars`
      returns them: a literal must equal its segment and the placeholder
      accepts only a non-empty digit string. */
  function MatchPattern(pattern: seq<Segment>, segs: seq<string>): (vars: Option<map<string, string>>)
    ensures vars.Some? ==> |segs| == |pattern|
  {
    if pattern == [] then
      if segs == [] then Some(map[]) else None
    else if segs == [] then None
    else
      match MatchPattern(pattern[1..], segs[1..])
      case None => None
      case Some(vars) =>
        match pattern[0]
        case Lit(t) => if segs[0] == t then Some(vars) else None
        case IdVar => if IsDigits(segs[0]) then Some(vars[IdKey := segs[0]]) else None
  }

  /** What a successful match looks like, position by position. */
  lemma {:induction false} MatchPatternShape(pattern: seq<Segment>, segs: seq<string>)
    requires MatchPattern(pattern, segs).Some?
    ensures |segs| == |pattern|
    ensures forall k :: 0 <= k < |pattern| && pattern[k].Lit? ==> segs[k] == pattern[k].text
    ensures forall k :: 0 <= k < |pattern| && pattern[k].IdVar? ==> IsDigits(segs[k])
    decreases |pattern|
  {
    if pattern != [] {
      MatchPatternShape(pattern[1..], segs[1..]);
      assert forall k :: 1 <= k < |pattern| ==> pattern[k] == pattern[1..][k - 1] && segs[k] == segs[1..][k - 1];
    }
  }

  datatype RouteMatch = RouteMatch(route: Route, vars: map<string, string>)

  /** The first route, in registration order, with this verb whose pattern
      matches the segments. */
  function FirstMatch(routes: seq<Route>, verb: Method, segs: seq<string>): (m: Option<RouteMatch>)
    ensures m.Some? ==> m.value.route in routes && m.value.route.verb == verb
    ensures m.Some? ==> MatchPattern(m.value.route.pattern, segs) == Some(m.value.vars)
    ensures m.None? ==> forall k :: 0 <= k < |routes| && routes[k].verb == verb ==> MatchPattern(routes[k].pattern, segs).None?
  {
    if routes == [] then None
    else if routes[0].verb == verb && MatchPattern(routes[0].pattern, segs).Some? then
      Some(RouteMatch(routes[0], MatchPattern(routes[0].pattern, segs).value))
    else FirstMatch(routes[1..], verb, segs)
  }

  /** The registered route a request reaches; `None` is the not-found handler. */
  function Match(verb: Method, path: string): (m: Option<RouteMatch>)
    ensures m.Some? ==> m.value.route in Routes && m.value.route.verb == verb
    ensures (path == "" || path[0] != '/') ==> m.None?
  {
    match SegmentsOf(path)
    case None => None
    case Some(segs) => FirstMatch(Routes, verb, segs)
  }

  // ---------------------------------------------------------------------------
  // Reverse routing

  datatype UrlError = UnknownRoute(name: string) | MissingVariable(key: string) | VariableMismatch(key: string)

  /** The registered route called `name`, if any. */
  function RouteNamed(routes: seq<Route>, name: string): (r: Option<Route>)
    ensures r.Some? ==> r.value in routes && r.value.name == name
    ensures r.None? ==> forall k :: 0 <= k < |routes| ==> routes[k].name != name
  {
    if routes == [] then None
    else if routes[0].name == name then Some(routes[0])
    else RouteNamed(routes[1..], name)
  }

  /** The pattern with its placeholder filled from `vars`; fails when the
      value is missing or is not a digit string. */
  function Expand(pattern: seq<Segment>, vars: map<string, string>): (r: Result<seq<string>, UrlError>)
    ensures r.Ok? ==> |r.value| == |pattern|
    ensures r.Err? <==> (exists k :: 0 <= k < |pattern| && pattern[k].IdVar?) && (IdKey !in vars || !IsDigits(vars[IdKey]))
    ensures r.Err? ==> !r.error.UnknownRoute?
    decreases |pattern|
  {
    if pattern == [] then Ok([])
    else
      match Expand(pattern[1..], vars)
      case Err(e) => Err(e)
      case Ok(rest) =>
        match pattern[0]
        case Lit(t) => Ok([t] + rest)
        case IdVar =>
          if IdKey !in vars then Err(MissingVariable(IdKey))
          else if !IsDigits(vars[IdKey]) then Err(VariableMismatch(IdKey))
          else Ok([vars[IdKey]] + rest)
  }

  /** `router.Get(name).URL(pairs...)`. */
  function Reverse(name: string, vars: map<string, string>): (r: Result<string, UrlError>)
    ensures r == Err(UnknownRoute(name)) <==> forall k :: 0 <= k < |Routes| ==> Routes[k].name != name
    ensures r.Ok? ==> |r.value| > 0 && r.value[0] == '/'
  {
    match RouteNamed(Routes, name)
    case None => Err(UnknownRoute(name))
    case Some(r) =>
      match Expand(r.pattern, vars)
      case Err(e) => Err(e)
      case Ok(segs) => Ok(PathOf(segs))
  }

  // ---------------------------------------------------------------------------
  // The trailing-slash middleware

  /** `removeTrailingSlash`: every path except `/` loses one trailing `/`. */
  function RemoveTrailingSlash(path: string): (r: string)
    ensures path == "/" ==> r == path
    ensures path != "/" && |path| > 0 && path[|path| - 1] == '/' ==> r + "/" == path
    ensures |path| == 0 || path[|path| - 1] != '/' ==> r == path
  {
    if path != "/" && |path| > 0 && path[|path| - 1] == '/' then path[..|path| - 1] else path
  }

  /** Appending one `/` to a non-empty path is undone by the middleware (for
      `""` the result is `/`, which it keeps). */
  lemma StripsAppendedSlash(path: string)
    requires path != ""
    ensures RemoveTrailingSlash(path + "/") == path
  {
    assert (path + "/")[..|path|] == path;
  }

  /** Only one slash goes: `a//` becomes `a/` and then `a`, so the rewrite is
      not idempotent. */
  lemma RemoveTrailingSlashNotIdempotent(path: string)
    requires path == "a//"
    ensures RemoveTrailingSlash(path) == "a/"
    ensures RemoveTrailingSlash(RemoveTrailingSlash(path)) == "a"
  {
    assert path[..2] == "a/";
    assert "a/"[..1] == "a";
  }

  /** The route a request reaches after the middleware. */
  function Dispatch(verb: Method, path: string): (m: Option<RouteMatch>)
    ensures m.Some? ==> m.value.route in Routes && m.value.route.verb == verb
    ensures (path == "" || path[0] != '/') ==> m.None?
  {
    Match(verb, RemoveTrailingSlash(path))
  }
}

/** Properties of the declared route table: reverse routing and matching are
    inverse to each other, and no request can reach two routes. */
module RouteTable {
  import opened Wrappers
  import opened Decimal
  import opened Router

  predicate HasIdVar(pattern: seq<Segment>) {
    exists k :: 0 <= k < |pattern| && pattern[k].IdVar?
  }

  /** The variables a request to an expanded pattern carries: `id` when the
      pattern has the placeholder, nothing otherwise. */
  function BoundVars(pattern: seq<Segment>, id: string): map<string, string> {
    if HasIdVar(pattern) then map[IdKey := id] else map[]
  }

  /** Literal segments that cannot be confused with a separator or an empty
      piece. */
  predicate WellFormedPattern(pattern: seq<Segment>) {
    forall k :: 0 <= k < |pattern| && pattern[k].Lit? ==> NoSlash(pattern[k].text) && pattern[k].text != ""
  }

  /** Expanding a pattern with a digit id and matching the result binds that id
      again. */
  lemma {:induction false} MatchExpand(pattern: seq<Segment>, id: string)
    requires IsDigits(id)
    ensures Expand(pattern, map[IdKey := id]).Ok?
    ensures MatchPattern(pattern, Expand(pattern, map[IdKey := id]).value) == Some(BoundVars(pattern, id))
    decreases |pattern|
  {
    if pattern != [] {
      MatchExpand(pattern[1..], id);
      var tail := pattern[1..];
      assert HasIdVar(pattern) <==> pattern[0].IdVar? || HasIdVar(tail) by {
        if HasIdVar(pattern) {
          var k :| 0 <= k < |pattern| && pattern[k].IdVar?;
          if k > 0 { assert tail[k - 1].IdVar?; }
        }
        if HasIdVar(tail) {
          var k :| 0 <= k < |tail| && tail[k].IdVar?;
          assert pattern[k + 1].IdVar?;
        }
        if pattern[0].IdVar? { assert HasIdVar(pattern); }
      }
      var vars := map[IdKey := id];
      var rest := Expand(tail, vars).value;
      assert Expand(pattern, vars).value == [if pattern[0].IdVar? then id else pattern[0].text] + rest;
      assert ([if pattern[0].IdVar? then id else pattern[0].text] + rest)[1..] == rest;
      if pattern[0].IdVar? {
        assert BoundVars(tail, id)[IdKey := id] == map[IdKey := id];
      }
    }
  }

  /** Expansion with a digit id writes each literal as itself and the
      placeholder as the id. */
  lemma {:induction false} ExpandPositions(pattern: seq<Segment>, id: string)
    requires IsDigits(id)
    ensures Expand(pattern, map[IdKey := id]).Ok?
    ensures |Expand(pattern, map[IdKey := id]).value| == |pattern|
    ensures forall k :: 0 <= k < |pattern| ==>
      Expand(pattern, map[IdKey := id]).value[k] == if pattern[k].Lit? then pattern[k].text else id
    decreases |pattern|
  {
    if pattern != [] {
      ExpandPositions(pattern[1..], id);
      assert forall k :: 1 <= k < |pattern| ==> pattern[k] == pattern[1..][k - 1];
    }
  }

  /** The segments of an expanded well-formed pattern are non-empty and free of
      `/`. */
  lemma {:induction false} ExpandSegmentsClean(pattern: seq<Segment>, vars: map<string, string>)
    requires WellFormedPattern(pattern)
    requires Expand(pattern, vars).Ok?
    ensures forall k :: 0 <= k < |Expand(pattern, vars).value| ==>
      NoSlash(Expand(pattern, vars).value[k]) && Expand(pattern, vars).value[k] != ""
    decreases |pattern|
  {
    if pattern != [] {
      assert forall k :: 0 <= k < |pattern[1..]| ==> pattern[1..][k] == pattern[k + 1];
      ExpandSegmentsClean(pattern[1..], vars);
    }
  }

  lemma TableWellFormed(i: nat)
    requires i < |Routes|
    ensures WellFormedPattern(Routes[i].pattern)
  {
    var p := Routes[i].pattern;
    forall k | 0 <= k < |p| && p[k].Lit? ensures NoSlash(p[k].text) && p[k].text != "" {
      var t := p[k].text;
      assert t in {"about", "articles", "create", "edit", "delete"};
    }
  }

  /** Route names are unique, so `router.Get(name)` is unambiguous. */
  lemma RouteNamesUnique(i: nat, j: nat)
    requires i < |Routes| && j < |Routes| && Routes[i].name == Routes[j].name
    ensures i == j
  {
  }

  /** `router.Get(Routes[i].name)` finds `Routes[i]`. */
  lemma {:induction false} RouteNamedFinds(routes: seq<Route>, i: nat)
    requires i < |routes|
    requires forall j :: 0 <= j < |routes| && routes[j].name == routes[i].name ==> j == i
    ensures RouteNamed(routes, routes[i].name) == Some(routes[i])
    decreases i
  {
    if i > 0 {
      assert routes[0].name != routes[i].name;
      RouteNamedFinds(routes[1..], i - 1);
    }
  }

  lemma RouteNamedFindsDeclared(i: nat)
    requires i < |Routes|
    ensures RouteNamed(Routes, Routes[i].name) == Some(Routes[i])
  {
    forall j | 0 <= j < |Routes| && Routes[j].name == Routes[i].name ensures j == i {
      RouteNamesUnique(i, j);
    }
    RouteNamedFinds(Routes, i);
  }

  /** No request is matched by two routes with the same verb; in particular the
      literal `/articles/create` never reaches `articles.show`, so registration
      order does not decide anything in this table. */
  lemma MatchUnique(i: nat, j: nat, segs: seq<string>)
    requires i < |Routes| && j < |Routes| && Routes[i].verb == Routes[j].verb
    requires MatchPattern(Routes[i].pattern, segs).Some?
    requires MatchPattern(Routes[j].pattern, segs).Some?
    ensures i == j
  {
    MatchPatternShape(Routes[i].pattern, segs);
    MatchPatternShape(Routes[j].pattern, segs);
    assert !IsDigits("create") by { assert "create"[0] == 'c'; }
  }

  /** The first matching route is the only one. */
  lemma {:induction false} FirstMatchFinds(routes: seq<Route>, verb: Method, segs: seq<string>, i: nat)
    requires i < |routes| && routes[i].verb == verb
    requires MatchPattern(routes[i].pattern, segs).Some?
    requires forall j :: 0 <= j < i && routes[j].verb == verb ==> MatchPattern(routes[j].pattern, segs).None?
    ensures FirstMatch(routes, verb, segs) == Some(RouteMatch(routes[i], MatchPattern(routes[i].pattern, segs).value))
    decreases i
  {
    if i > 0 {
      FirstMatchFinds(routes[1..], verb, segs, i - 1);
    }
  }

  /** When no route with the verb matches, the not-found handler answers. */
  lemma {:induction false} NoRouteMatches(routes: seq<Route>, verb: Method, segs: seq<string>)
    requires forall j :: 0 <= j < |routes| && routes[j].verb == verb ==> MatchPattern(routes[j].pattern, segs).None?
    ensures FirstMatch(routes, verb, segs) == None
    decreases |routes|
  {
    if routes != [] {
      NoRouteMatches(routes[1..], verb, segs);
    }
  }

  /** The names, verbs and placeholders of the declared routes: the POST
      routes are exactly the three that write, and the placeholder appears
      exactly in the four per-article routes. */
  lemma DeclaredRoute(route: Route)
    requires route in Routes
    ensures route.verb == POST <==>
      route.name == "articles.store" || route.name == "articles.update" || route.name == "articles.delete"
    ensures HasIdVar(route.pattern) <==>
      || route.name == "articles.show" || route.name == "articles.edit"
      || route.name == "articles.update" || route.name == "articles.delete"
  {
    var i :| 0 <= i < |Routes| && Routes[i] == route;
    if i == 2 || i == 7 {
      assert route.pattern[1].IdVar?;
    } else if i == 6 || i == 8 {
      assert route.pattern[1].IdVar?;
    }
  }

  /** A placeholder that matched carries a digit string. */
  lemma {:induction false} MatchBindsDigits(pattern: seq<Segment>, segs: seq<string>)
    requires MatchPattern(pattern, segs).Some?
    requires HasIdVar(pattern)
    ensures IdKey in MatchPattern(pattern, segs).value
    ensures IsDigits(MatchPattern(pattern, segs).value[IdKey])
    decreases |pattern|
  {
    var k :| 0 <= k < |pattern| && pattern[k].IdVar?;
    if k > 0 {
      assert pattern[1..][k - 1].IdVar?;
    }
    if HasIdVar(pattern[1..]) && !pattern[0].IdVar? {
      MatchBindsDigits(pattern[1..], segs[1..]);
    }
  }

  lemma {:induction false} FirstMatchIsDeclared(routes: seq<Route>, verb: Method, segs: seq<string>)
    requires FirstMatch(routes, verb, segs).Some?
    ensures var m := FirstMatch(routes, verb, segs).value;
      m.route in routes && m.route.verb == verb && MatchPattern(m.route.pattern, segs) == Some(m.vars)
    decreases |routes|
  {
    if routes[0].verb != verb || MatchPattern(routes[0].pattern, segs).None? {
      FirstMatchIsDeclared(routes[1..], verb, segs);
    }
  }

  /** A dispatched request reaches a declared route with its own verb, and a
      route with the placeholder receives a digit string for `id`. */
  lemma DispatchedRoute(verb: Method, path: string)
    requires Dispatch(verb, path).Some?
    ensures Dispatch(verb, path).value.route in Routes
    ensures Dispatch(verb, path).value.route.verb == verb
    ensures HasIdVar(Dispatch(verb, path).value.route.pattern) ==>
      IdKey in Dispatch(verb, path).value.vars && IsDigits(Dispatch(verb, path).value.vars[IdKey])
  {
    var segs := SegmentsOf(RemoveTrailingSlash(path)).value;
    FirstMatchIsDeclared(Routes, verb, segs);
    var m := Dispatch(verb, path).value;
    if HasIdVar(m.route.pattern) {
      MatchBindsDigits(m.route.pattern, segs);
    }
  }

  /** Reverse routing a declared route with a digit id yields a path that the
      router sends back to that same route with that same id. */
  lemma ReverseThenMatch(i: nat, id: string)
    requires i < |Routes| && IsDigits(id)
    ensures Reverse(Routes[i].name, map[IdKey := id]).Ok?
    ensures Match(Routes[i].verb, Reverse(Routes[i].name, map[IdKey := id]).value)
      == Some(RouteMatch(Routes[i], BoundVars(Routes[i].pattern, id)))
  {
    var r := Routes[i];
    var vars := map[IdKey := id];
    forall j | 0 <= j < |Routes| && Routes[j].name == r.name ensures j == i {
      RouteNamesUnique(i, j);
    }
    RouteNamedFinds(Routes, i);
    MatchExpand(r.pattern, id);
    var segs := Expand(r.pattern, vars).value;
    TableWellFormed(i);
    ExpandSegmentsClean(r.pattern, vars);
    SegmentsOfPathOf(segs);
    forall j | 0 <= j < i && Routes[j].verb == r.verb ensures MatchPattern(Routes[j].pattern, segs).None? {
      if MatchPattern(Routes[j].pattern, segs).Some? {
        MatchUnique(i, j, segs);
      }
    }
    FirstMatchFinds(Routes, r.verb, segs, i);
  }

  /** A request for a generated URL with one trailing `/` added is dispatched
      to the same route: the middleware strips the slash before matching. */
  lemma TrailingSlashDispatch(i: nat, id: string)
    requires i < |Routes| && IsDigits(id)
    ensures Reverse(Routes[i].name, map[IdKey := id]).Ok?
    ensures Dispatch(Routes[i].verb, Reverse(Routes[i].name, map[IdKey := id]).value + "/")
      == Some(RouteMatch(Routes[i], BoundVars(Routes[i].pattern, id)))
  {
    ReverseThenMatch(i, id);
    var p := Reverse(Routes[i].name, map[IdKey := id]).value;
    assert |p| > 0;
    if p == "/" {
      assert RemoveTrailingSlash(p + "/") == p;
    } else {
      assert (p + "/")[..|p + "/"| - 1] == p;
    }
  }

  /** Reversing a declared route expands its own pattern. */
  lemma ReverseDeclared(i: nat, vars: map<string, string>)
    requires i < |Routes|
    ensures Reverse(Routes[i].name, vars) ==
      match Expand(Routes[i].pattern, vars)
      case Err(e) => Err(e)
      case Ok(segs) => Ok(PathOf(segs))
  {
    RouteNamedFindsDeclared(i);
  }

  lemma ExpandArticleId(pattern: seq<Segment>, id: string)
    requires pattern == [Lit("articles"), IdVar] && IsDigits(id)
    ensures Expand(pattern, map[IdKey := id]) == Ok(["articles", id])
    ensures PathOf(["articles", id]) == "/articles/" + id
  {
    ExpandPositions(pattern, id);
    var segs := Expand(pattern, map[IdKey := id]).value;
    assert pattern[0].Lit? && pattern[0].text == "articles" && pattern[1].IdVar?;
    assert segs[0] == "articles" && segs[1] == id;
    assert segs == ["articles", id];
    assert Join(["articles", id]) == "articles" + "/" + id;
  }

  /** The show and update routes put the id after `/articles/`, as in
      `/articles/23` for the id `23`. */
  lemma ReverseArticleId(name: string, id: string)
    requires name == "articles.show" || name == "articles.update"
    requires IsDigits(id)
    ensures Reverse(name, map[IdKey := id]) == Ok("/articles/" + id)
  {
    if name == "articles.show" {
      ReverseDeclared(2, map[IdKey := id]);
      ExpandArticleId(Routes[2].pattern, id);
    } else {
      ReverseDeclared(7, map[IdKey := id]);
      ExpandArticleId(Routes[7].pattern, id);
    }
  }

  lemma ExpandCollection(pattern: seq<Segment>, vars: map<string, string>)
    requires pattern == [Lit("articles")]
    ensures Expand(pattern, vars) == Ok(["articles"])
    ensures PathOf(["articles"]) == "/articles"
  {
    assert pattern[1..] == [];
    assert Expand(pattern[1..], vars) == Ok([]);
    assert pattern[0].Lit? && pattern[0].text == "articles";
    assert ["articles"] + [] == ["articles"];
  }

  /** The index and store routes need no variable and share `/articles`. */
  lemma ReverseArticlesCollection(name: string, vars: map<string, string>)
    requires name == "articles.index" || name == "articles.store"
    ensures Reverse(name, vars) == Ok("/articles")
  {
    if name == "articles.index" {
      ReverseDeclared(3, vars);
      ExpandCollection(Routes[3].pattern, vars);
    } else {
      ReverseDeclared(4, vars);
      ExpandCollection(Routes[4].pattern, vars);
    }
  }

  /** Expansion of a pattern with the placeholder fails exactly as the URL
      builder does: a missing id, or one that is not a digit string. */
  lemma {:induction false} ExpandFailure(pattern: seq<Segment>, vars: map<string, string>)
    requires HasIdVar(pattern)
    requires IdKey !in vars || !IsDigits(vars[IdKey])
    ensures Expand(pattern, vars) ==
      Err(if IdKey !in vars then MissingVariable(IdKey) else VariableMismatch(IdKey))
    decreases |pattern|
  {
    var k :| 0 <= k < |pattern| && pattern[k].IdVar?;
    if k > 0 {
      assert pattern[1..][k - 1].IdVar?;
      ExpandFailure(pattern[1..], vars);
    } else if HasIdVar(pattern[1..]) {
      ExpandFailure(pattern[1..], vars);
    } else {
      ExpandPlain(pattern[1..], vars);
    }
  }

  /** A pattern without the placeholder always expands. */
  lemma {:induction false} ExpandPlain(pattern: seq<Segment>, vars: map<string, string>)
    requires !HasIdVar(pattern)
    ensures Expand(pattern, vars).Ok?
    decreases |pattern|
  {
    if pattern != [] {
      assert !pattern[0].IdVar?;
      forall k | 0 <= k < |pattern[1..]| ensures !pattern[1..][k].IdVar? {
        assert pattern[1..][k] == pattern[k + 1];
      }
      ExpandPlain(pattern[1..], vars);
    }
  }

  /** Reversal of a route with the placeholder fails when the id is missing
      or is not a digit string. */
  lemma ReverseBadId(i: nat, vars: map<string, string>)
    requires i < |Routes| && HasIdVar(Routes[i].pattern)
    requires IdKey !in vars || !IsDigits(vars[IdKey])
    ensures Reverse(Routes[i].name, vars) ==
      Err(if IdKey !in vars then MissingVariable(IdKey) else VariableMismatch(IdKey))
  {
    ReverseDeclared(i, vars);
    ExpandFailure(Routes[i].pattern, vars);
  }

  /** The show route refuses an id that is not a digit string, such as the
      numeral of a negative number. */
  lemma ReverseShowBadId(id: string)
    requires !IsDigits(id)
    ensures Reverse("articles.show", map[IdKey := id]) == Err(VariableMismatch(IdKey))
  {
    assert Routes[2].pattern[1].IdVar?;
    ReverseBadId(2, map[IdKey := id]);
  }

  /** The last character of joined segments is the last character of the
      last segment. */
  lemma {:induction false} JoinLast(segs: seq<string>)
    requires |segs| > 0 && segs[|segs| - 1] != ""
    ensures |Join(segs)| > 0 && Join(segs)[|Join(segs)| - 1] == segs[|segs| - 1][|segs[|segs| - 1]| - 1]
    decreases |segs|
  {
    if |segs| > 1 {
      JoinLast(segs[1..]);
      assert segs[1..][|segs[1..]| - 1] == segs[|segs| - 1];
    }
  }

  /** A request for the path made of `segs` is matched against exactly those
      segments: the path has no trailing `/` for the middleware to remove. */
  lemma DispatchPathOf(verb: Method, segs: seq<string>)
    requires |segs| > 0
    requires forall k :: 0 <= k < |segs| ==> NoSlash(segs[k]) && segs[k] != ""
    ensures Dispatch(verb, PathOf(segs)) == FirstMatch(Routes, verb, segs)
  {
    var p := PathOf(segs);
    JoinLast(segs);
    assert p[|p| - 1] == Join(segs)[|Join(segs)| - 1];
    var last := segs[|segs| - 1];
    assert last[|last| - 1] != '/';
    assert RemoveTrailingSlash(p) == p;
    SegmentsOfPathOf(segs);
  }

  /** The request `GET /articles/create` reaches the create form although
      `articles.show` is registered first. (The path is a parameter fixed by
      the requires, so that the verifier reasons about it rather than
      evaluating it.) */
  lemma CreateIsNotAnId(path: string)
    requires path == "/articles/create"
    ensures Dispatch(GET, path) == Some(RouteMatch(Routes[5], map[]))
  {
    var segs := ["articles", "create"];
    assert PathOf(segs) == path;
    DispatchPathOf(GET, segs);
    CreateSegmentsMatchCreate(segs);
  }

  lemma CreateSegmentsMatchCreate(segs: seq<string>)
    requires segs == ["articles", "create"]
    ensures FirstMatch(Routes, GET, segs) == Some(RouteMatch(Routes[5], map[]))
  {
    assert !IsDigits("create") by { assert "create"[0] == 'c'; }
    assert MatchPattern(Routes[5].pattern, segs) == Some(map[]) by {
      var p := Routes[5].pattern;
      assert p[1..][1..] == [] && segs[1..][1..] == [];
      assert MatchPattern(p[1..], segs[1..]) == Some(map[]);
    }
    forall j | 0 <= j < 5 && Routes[j].verb == GET ensures MatchPattern(Routes[j].pattern, segs).None? {
      if MatchPattern(Routes[j].pattern, segs).Some? {
        MatchUnique(5, j, segs);
      }
    }
    FirstMatchFinds(Routes, GET, segs, 5);
  }

  /** The request `GET /articles/abc` reaches no route: the placeholder takes
      digits only. */
  lemma NonNumericIdNotFound(path: string)
    requires path == "/articles/abc"
    ensures Dispatch(GET, path) == None
  {
    var segs := ["articles", "abc"];
    assert PathOf(segs) == path;
    DispatchPathOf(GET, segs);
    NonNumericSegmentsMatchNothing(segs);
  }

  lemma NonNumericSegmentsMatchNothing(segs: seq<string>)
    requires segs == ["articles", "abc"]
    ensures FirstMatch(Routes, GET, segs) == None
  {
    assert !IsDigits(segs[1]) by { assert segs[1][0] == 'a'; }
    forall j | 0 <= j < |Routes| && Routes[j].verb == GET ensures MatchPattern(Routes[j].pattern, segs).None? {
      if MatchPattern(Routes[j].pattern, segs).Some? {
        MatchPatternShape(Routes[j].pattern, segs);
      }
    }
    NoRouteMatches(Routes, GET, segs);
  }
}

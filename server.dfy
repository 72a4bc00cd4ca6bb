/** The program's wiring in `main`: a request passes the trailing-slash
    middleware, is dispatched by the route table, and reaches one handler, or
    the not-found handler when no route matches. */
module Server {
  import opened Wrappers
  import opened Decimal
  import opened Validation
  import opened Router
  import opened RouteTable
  import opened Store
  import opened Handlers

  /** A request: verb, path, and the `title` and `body` form values (empty
      when not posted, as `PostFormValue` returns them). */
  datatype Request = Request(verb: Method, path: string, title: string, body: string)

  /** How the database answers this request's statements: `read` for the
      lookup and the list query, `write` for the update and the delete,
      `insert` for the insert. */
  datatype Backend = Backend(read: Fault, write: Fault, insert: InsertFault)

  /** Positions in `Routes`, in registration order. */
  const HomeRoute := 0      // "home"
  const AboutRoute := 1     // "about"
  const ShowRoute := 2      // "articles.show"
  const IndexRoute := 3     // "articles.index"
  const StoreRoute := 4     // "articles.store"
  const CreateRoute := 5    // "articles.create"
  const EditRoute := 6      // "articles.edit"
  const UpdateRoute := 7    // "articles.update"
  const DeleteRoute := 8    // "articles.delete"

  /** The first position of `route` in `routes`. */
  function IndexOf(routes: seq<Route>, route: Route): (i: nat)
    requires route in routes
    ensures i < |routes| && routes[i] == route
  {
    if routes[0] == route then 0 else 1 + IndexOf(routes[1..], route)
  }

  /** A route listed once is found at its own position. */
  lemma {:induction false} IndexOfUnique(routes: seq<Route>, i: nat)
    requires i < |routes|
    requires forall j :: 0 <= j < |routes| && routes[j] == routes[i] ==> j == i
    ensures IndexOf(routes, routes[i]) == i
  {
    if i > 0 {
      assert routes[0] != routes[i];
      assert routes[1..][i - 1] == routes[i];
      forall j | 0 <= j < |routes[1..]| && routes[1..][j] == routes[1..][i - 1] ensures j == i - 1 {
        assert routes[j + 1] == routes[i];
      }
      IndexOfUnique(routes[1..], i - 1);
    }
  }

  /** Every declared route sits at its own position: route names are unique. */
  lemma IndexOfDeclared(i: nat)
    requires i < |Routes|
    ensures IndexOf(Routes, Routes[i]) == i
  {
    forall j | 0 <= j < |Routes| && Routes[j] == Routes[i] ensures j == i {
      RouteNamesUnique(i, j);
    }
    IndexOfUnique(Routes, i);
  }

  /** The position of the route a request reaches, `None` when no route
      matches. */
  function Routed(req: Request): (r: Option<nat>)
    ensures r.None? <==> Dispatch(req.verb, req.path).None?
    ensures r.Some? ==> r.value < |Routes| && Routes[r.value] == Dispatch(req.verb, req.path).value.route
    ensures r.Some? ==> Routes[r.value].verb == req.verb
  {
    var m := Dispatch(req.verb, req.path);
    if m.None? then None
    else
      DispatchedRoute(req.verb, req.path);
      Some(IndexOf(Routes, m.value.route))
  }

  /** The `id` the router hands a per-article handler, `""` for a route
      without the placeholder. */
  function RoutedId(req: Request): (id: string)
    ensures AllDigits(id)
    ensures Routed(req) in {Some(ShowRoute), Some(EditRoute), Some(UpdateRoute), Some(DeleteRoute)} ==> IsDigits(id)
  {
    var r := Routed(req);
    if r.Some? && r.value in {ShowRoute, EditRoute, UpdateRoute, DeleteRoute} then
      var m := Dispatch(req.verb, req.path).value;
      assert Routes[r.value].pattern[1].IdVar?;
      assert HasIdVar(m.route.pattern);
      DispatchedRoute(req.verb, req.path);
      Dispatch(req.verb, req.path).value.vars[IdKey]
    else ""
  }

  /** A request for the URL generated for a declared route, with that
      route's verb, is dispatched to that route with the id bound. */
  lemma DispatchGenerated(req: Request, i: nat, id: string)
    requires i < |Routes| && IsDigits(id)
    requires req.verb == Routes[i].verb
    requires Reverse(Routes[i].name, map[IdKey := id]) == Ok(req.path)
    requires |req.path| > 0 && req.path[|req.path| - 1] != '/'
    ensures Dispatch(req.verb, req.path) == Some(RouteMatch(Routes[i], BoundVars(Routes[i].pattern, id)))
  {
    ReverseThenMatch(i, id);
    assert RemoveTrailingSlash(req.path) == req.path;
  }

  /** A request for the URL generated for a declared route, with that
      route's verb, reaches that route, and a per-article handler receives the
      id the URL was generated with. */
  lemma RoutedGenerated(req: Request, i: nat, id: string)
    requires i < |Routes| && IsDigits(id)
    requires req.verb == Routes[i].verb
    requires Reverse(Routes[i].name, map[IdKey := id]) == Ok(req.path)
    requires |req.path| > 0 && req.path[|req.path| - 1] != '/'
    ensures Routed(req) == Some(i)
    ensures i in {ShowRoute, EditRoute, UpdateRoute, DeleteRoute} ==> RoutedId(req) == id
  {
    DispatchGenerated(req, i, id);
    IndexOfDeclared(i);
    if i in {ShowRoute, EditRoute, UpdateRoute, DeleteRoute} {
      assert Routes[i].pattern[1].IdVar?;
    }
  }

  /** What the handler registered at position `i` of the table answers, and
      how it takes the table from `rows` and `nextId` to `rows'` and
      `nextId'`, given the request's form values, the `id` the router bound
      and the database outcomes in `backend`. */
  ghost predicate Answered(i: nat, id: string, req: Request, backend: Backend, rows: map<int, Article>, nextId: int,
                           resp: Response, rows': map<int, Article>, nextId': int)
    requires AllDigits(id) && nextId >= 0
  {
    var untouched := rows' == rows && nextId' == nextId;
    && (i == HomeRoute ==> resp == Text(OK, HomeText) && untouched)
    && (i == AboutRoute ==> resp == Text(OK, AboutText) && untouched)
    && (i == IndexRoute ==> IndexAnswer(rows, backend.read, resp) && untouched)
    && (i == CreateRoute ==> resp == RenderForm(CreateForm, ArticlesFormData("", "", "/articles", map[])) && untouched)
    && (i == ShowRoute ==> ShowAnswer(rows, id, backend.read, resp) && untouched)
    && (i == EditRoute ==> EditAnswer(rows, id, backend.read, resp) && untouched)
    && (i == StoreRoute ==> StoreAnswer(rows, nextId, req.title, req.body, backend.insert, resp, rows', nextId'))
    && (i == UpdateRoute ==>
          nextId' == nextId && UpdateAnswer(rows, id, req.title, req.body, backend.read, backend.write, resp, rows'))
    && (i == DeleteRoute ==> nextId' == nextId && DeleteAnswer(rows, id, backend.read, backend.write, resp, rows'))
  }

  /** The handlers registered in `main`, by position in the table: the home
      and about pages, and the article handlers with the corrected update and
      index handlers. Every GET route leaves the table alone and no handler
      panics. */
  method Handle(store: ArticleStore, i: nat, id: string, req: Request, backend: Backend) returns (resp: Response)
    requires store.Valid() && i < |Routes| && AllDigits(id)
    requires i in {ShowRoute, EditRoute, UpdateRoute, DeleteRoute} ==> IsDigits(id)
    modifies store
    ensures store.Valid()
    ensures Answered(i, id, req, backend, old(store.rows), old(store.nextId), resp, store.rows, store.nextId)
    ensures Routes[i].verb == GET ==> store.rows == old(store.rows) && store.nextId == old(store.nextId)
    ensures resp != Panicked
  {
    if i == HomeRoute {
      resp := Text(OK, HomeText);
    } else if i == AboutRoute {
      resp := Text(OK, AboutText);
    } else if i == ShowRoute {
      resp := ArticlesShowHandler(store, id, backend.read);
    } else if i == IndexRoute {
      resp := ArticlesIndexHandler(store, backend.read);
    } else if i == StoreRoute {
      resp := ArticlesStoreHandler(store, req.title, req.body, backend.insert);
    } else if i == CreateRoute {
      resp := ArticlesCreateHandler();
    } else if i == EditRoute {
      resp := ArticlesEditHandler(store, id, backend.read);
    } else if i == UpdateRoute {
      resp := ArticlesUpdateHandler(store, id, req.title, req.body, backend.read, backend.write);
    } else {
      resp := ArticlesDeleteHandler(store, id, backend.read, backend.write);
    }
  }

  /** One request end to end: the trailing-slash middleware and the router
      pick the route; a request that matches none gets the not-found page
      and changes nothing; otherwise the route's own handler answers, with
      the `id` the router bound. A GET never changes the table and no
      request makes the server panic. */
  method Serve(store: ArticleStore, req: Request, backend: Backend) returns (resp: Response)
    requires store.Valid()
    modifies store
    ensures store.Valid()
    ensures Routed(req).None? ==>
      resp == Text(NotFound, PageNotFoundText) && store.rows == old(store.rows) && store.nextId == old(store.nextId)
    ensures Routed(req).Some? ==>
      Answered(Routed(req).value, RoutedId(req), req, backend, old(store.rows), old(store.nextId), resp, store.rows, store.nextId)
    ensures req.verb == GET ==> store.rows == old(store.rows) && store.nextId == old(store.nextId)
    ensures resp != Panicked
  {
    var r := Routed(req);
    if r.None? {
      resp := Text(NotFound, PageNotFoundText);
    } else {
      resp := Handle(store, r.value, RoutedId(req), req, backend);
    }
  }
}

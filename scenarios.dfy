/** Request sequences whose outcome follows from the handlers' contracts
    alone: what a client of the blog can rely on across requests. */
module Scenarios {
  import opened Wrappers
  import opened Decimal
  import opened Validation
  import opened Router
  import opened RouteTable
  import opened Store
  import opened Handlers
  import opened Server

  /** An article stored through the form is shown back, unchanged, at the id
      the success message announces. */
  method CreateThenShow(store: ArticleStore, title: string, body: string) returns (created: Response, shown: Response)
    requires store.Valid() && AcceptableForm(title, body)
    modifies store
    ensures created == Text(OK, InsertedText + NatToDecimal(old(store.nextId)))
    ensures shown == RenderShow(Article(old(store.nextId), title, body))
  {
    var id := store.nextId;
    created := ArticlesStoreHandler(store, title, body, InsertOk);
    DecimalValueOfNatToDecimal(id);
    shown := ArticlesShowHandler(store, NatToDecimal(id), NoFault);
  }

  /** Deleting twice: the first request redirects to the index, the second
      finds nothing and answers 404, and so does showing the article. */
  method DeleteTwice(store: ArticleStore, id: string) returns (first: Response, second: Response, shown: Response)
    requires store.Valid() && IsDigits(id) && DecimalValue(id) in store.rows
    modifies store
    ensures first == Redirect("/articles")
    ensures second == Text(NotFound, ArticleNotFoundText)
    ensures shown == Text(NotFound, ArticleNotFoundText)
  {
    first := ArticlesDeleteHandler(store, id, NoFault, NoFault);
    second := ArticlesDeleteHandler(store, id, NoFault, NoFault);
    shown := ArticlesShowHandler(store, id, NoFault);
  }

  /** Submitting the stored title and body again changes no row: the answer
      is 200 "no changes" and not a redirect. */
  method UpdateWithSameValues(store: ArticleStore, id: string) returns (resp: Response)
    requires store.Valid() && IsDigits(id) && DecimalValue(id) in store.rows
    requires AcceptableForm(store.rows[DecimalValue(id)].title, store.rows[DecimalValue(id)].body)
    modifies store
    ensures resp == Text(OK, NoChangesText)
    ensures store.rows == old(store.rows)
  {
    var a := store.rows[DecimalValue(id)];
    resp := ArticlesUpdateHandler(store, id, a.title, a.body, NoFault, NoFault);
    assert store.rows == old(store.rows)[DecimalValue(id) := a];
  }

  /** A two-rune title is sent back in the create form with a title error and
      nothing is stored; a valid form is stored. */
  method StoreShortTitle(store: ArticleStore) returns (rejected: Response, accepted: Response)
    requires store.Valid()
    modifies store
    ensures rejected.RenderForm? && TitleField in rejected.data.errors && BodyField !in rejected.data.errors
    ensures accepted == Text(OK, InsertedText + NatToDecimal(old(store.nextId)))
    ensures store.rows == old(store.rows)[old(store.nextId) := Article(old(store.nextId), "Hello World", "0123456789")]
  {
    rejected := ArticlesStoreHandler(store, "Hi", "1234567890", InsertOk);
    accepted := ArticlesStoreHandler(store, "Hello World", "0123456789", InsertOk);
  }

  /** `POST /articles` reaches the store route. */
  lemma StorePathRouted(posted: Request)
    requires posted.verb == POST && posted.path == "/articles"
    ensures Routed(posted) == Some(StoreRoute)
  {
    ReverseArticlesCollection("articles.store", map[IdKey := "0"]);
    RoutedGenerated(posted, StoreRoute, "0");
  }

  /** `GET /articles/<n>` reaches the show route with `n`'s numeral as the id. */
  lemma ShowPathRouted(page: Request, n: nat)
    requires page.verb == GET && page.path == "/articles/" + NatToDecimal(n)
    ensures Routed(page) == Some(ShowRoute) && RoutedId(page) == NatToDecimal(n)
  {
    var numeral := NatToDecimal(n);
    ReverseArticleId("articles.show", numeral);
    assert page.path[|page.path| - 1] == numeral[|numeral| - 1];
    RoutedGenerated(page, ShowRoute, numeral);
  }

  /** `POST /articles` reaches the store route, and `GET /articles/<n>` the
      show route with `n`'s numeral as the id. */
  lemma ArticlePathsRouted(posted: Request, page: Request, n: nat)
    requires posted.verb == POST && posted.path == "/articles"
    requires page.verb == GET && page.path == "/articles/" + NatToDecimal(n)
    ensures Routed(posted) == Some(StoreRoute)
    ensures Routed(page) == Some(ShowRoute) && RoutedId(page) == NatToDecimal(n)
  {
    StorePathRouted(posted);
    ShowPathRouted(page, n);
  }

  /** The same round trip through the whole server: a valid form posted to
      the store route answers 200 with the new id, and a GET of the show
      route for that id shows the article back. */
  method PostThenGet(store: ArticleStore, posted: Request, page: Request) returns (created: Response, shown: Response)
    requires store.Valid() && AcceptableForm(posted.title, posted.body)
    requires Routed(posted) == Some(StoreRoute)
    requires Routed(page) == Some(ShowRoute) && RoutedId(page) == NatToDecimal(store.nextId)
    modifies store
    ensures created == Text(OK, InsertedText + NatToDecimal(old(store.nextId)))
    ensures shown == RenderShow(Article(old(store.nextId), posted.title, posted.body))
  {
    DecimalValueOfNatToDecimal(store.nextId);
    created := Serve(store, posted, Backend(NoFault, NoFault, InsertOk));
    shown := Serve(store, page, Backend(NoFault, NoFault, InsertOk));
  }
}

/** The article endpoints: how each handler turns the outcome of the lookup,
    the validation and the write into a response. Template rendering is
    modelled only as "this template was rendered with this data". */
module Handlers {
  import opened Wrappers
  import opened Decimal
  import opened Validation
  import opened Router
  import opened RouteTable
  import opened Store

  /** 200 OK (section 15.3.1 of RFC 9110). */
  const StatusOK := 200
  /** 302 Found (section 15.4.3 of RFC 9110). */
  const StatusFound := 302
  /** 404 Not Found (section 15.5.5 of RFC 9110). */
  const StatusNotFound := 404
  /** 500 Internal Server Error (section 15.6.1 of RFC 9110). */
  const StatusInternalServerError := 500

  const ArticleNotFoundText := "404 文章未找到"
  const ServerErrorText := "500 服务器内部错误"
  const NoChangesText := "您没做任何修改"
  const InsertedText := "插入成功， ID为"
  const HomeText := "<h1>Hello, 欢迎来到 goblog！</h1>"
  const AboutText := "此博客是用以记录编程笔记，如您有反馈或建议，请联系 <a href=\"mailto:summer@example.com\">summer@example.com</a>"
  const PageNotFoundText := "<h1>请求页面未找到 :(</h1><p>如有疑惑，请联系我们。</p>"

  /** The form templates. */
  datatype FormView = CreateForm | EditForm

  /** `ArticlesFormData`: the submitted (or stored) values, the form's target
      URL and the validation errors; `""` stands for a nil URL. */
  datatype ArticlesFormData = ArticlesFormData(title: string, body: string, url: string, errors: map<string, string>)

  /** The statuses a plain-text answer is sent with. */
  datatype Code = OK | NotFound | InternalServerError

  datatype Response =
    | Text(code: Code, text: string)              // a status and a plain message
    | RenderForm(view: FormView, data: ArticlesFormData) // a form template, status 200
    | RenderShow(article: Article)                // the show template, status 200
    | RenderIndex(articles: seq<Article>)         // the index template, status 200
    | Redirect(location: string)                  // 302 with a Location header
    | Panicked                                    // the handler panicked; the server drops the connection

  /** The status line a response carries: 302 exactly for a redirect, 200 for
      every rendered template. */
  function StatusOf(r: Response): (status: int)
    requires !r.Panicked?
    ensures status in {StatusOK, StatusFound, StatusNotFound, StatusInternalServerError}
    ensures r.Redirect? <==> status == StatusFound
    ensures (r.RenderForm? || r.RenderShow? || r.RenderIndex?) ==> status == StatusOK
  {
    match r
    case Text(OK, _) => StatusOK
    case Text(NotFound, _) => StatusNotFound
    case Text(InternalServerError, _) => StatusInternalServerError
    case Redirect(_) => StatusFound
    case _ => StatusOK
  }

  /** `router.Get(name).URL(...)` with the error dropped, as the handlers do. */
  function URLFor(name: string, vars: map<string, string>): (url: string)
    ensures url == "" <==> Reverse(name, vars).Err?
    ensures url != "" ==> Reverse(name, vars) == Ok(url) && url[0] == '/'
  {
    match Reverse(name, vars)
    case Ok(url) => url
    case Err(_) => ""
  }

  /** `Article.Link`: the show URL of the article, or `""` (after logging)
      when its id has no digit-only numeral, that is, when it is negative. */
  function ArticleLink(a: Article): (url: string)
    ensures a.id >= 0 ==> url == "/articles/" + NatToDecimal(a.id)
    ensures a.id < 0 ==> url == ""
  {
    if a.id >= 0 then
      ReverseArticleId("articles.show", FormatInt(a.id));
      URLFor("articles.show", map[IdKey := FormatInt(a.id)])
    else
      ReverseShowBadId(FormatInt(a.id));
      URLFor("articles.show", map[IdKey := FormatInt(a.id)])
  }

  /** The answer to a failed lookup: 404 for `sql.ErrNoRows`, 500 for any
      other error. */
  function LookupFailure(r: Lookup): (resp: Response)
    requires !r.Found?
    ensures r == NoRows <==> resp == Text(NotFound, ArticleNotFoundText)
    ensures r.LookupFailed? <==> resp == Text(InternalServerError, ServerErrorText)
  {
    if r == NoRows then Text(NotFound, ArticleNotFoundText) else Text(InternalServerError, ServerErrorText)
  }

  /** What `articlesShowHandler` answers over the table `rows`: 500 when the
      lookup fails, 404 when no row has the id's numeric value, and the show
      page of that row otherwise. */
  predicate ShowAnswer(rows: map<int, Article>, id: string, fault: Fault, resp: Response)
    requires AllDigits(id)
  {
    && (fault.Fails? ==> resp == Text(InternalServerError, ServerErrorText))
    && (fault == NoFault && DecimalValue(id) !in rows ==> resp == Text(NotFound, ArticleNotFoundText))
    && (fault == NoFault && DecimalValue(id) in rows ==> resp == RenderShow(rows[DecimalValue(id)]))
  }

  /** `articlesShowHandler`. The router hands it a digit string, which MySQL
      compares with the id column by its numeric value. */
  method ArticlesShowHandler(store: ArticleStore, id: string, fault: Fault) returns (resp: Response)
    requires store.Valid() && IsDigits(id)
    ensures ShowAnswer(store.rows, id, fault, resp)
    ensures resp.RenderShow? ==> resp.article.id == DecimalValue(id)
  {
    var found := store.GetByID(DecimalValue(id), fault);
    if found.Found? {
      resp := RenderShow(found.article);
    } else {
      resp := LookupFailure(found);
    }
  }

  /** What `articlesEditHandler` answers over the table `rows`: the lookup's
      500 and 404 as for the show page, and otherwise the edit form holding the
      stored title and body, aimed at the update route for the same id. */
  predicate EditAnswer(rows: map<int, Article>, id: string, fault: Fault, resp: Response)
    requires AllDigits(id)
  {
    && (fault.Fails? ==> resp == Text(InternalServerError, ServerErrorText))
    && (fault == NoFault && DecimalValue(id) !in rows ==> resp == Text(NotFound, ArticleNotFoundText))
    && (fault == NoFault && DecimalValue(id) in rows ==>
          var a := rows[DecimalValue(id)];
          resp == RenderForm(EditForm, ArticlesFormData(a.title, a.body, "/articles/" + id, map[])))
  }

  /** `articlesEditHandler`: the stored title and body in the edit form, whose
      target is the update route for the same id. */
  method ArticlesEditHandler(store: ArticleStore, id: string, fault: Fault) returns (resp: Response)
    requires store.Valid() && IsDigits(id)
    ensures EditAnswer(store.rows, id, fault, resp)
  {
    var found := store.GetByID(DecimalValue(id), fault);
    if found.Found? {
      ReverseArticleId("articles.update", id);
      var updateURL := URLFor("articles.update", map[IdKey := id]);
      resp := RenderForm(EditForm, ArticlesFormData(found.article.title, found.article.body, updateURL, map[]));
    } else {
      resp := LookupFailure(found);
    }
  }

  /** `articlesCreateHandler`: an empty create form aimed at the store route. */
  function ArticlesCreateHandler(): (resp: Response)
    ensures resp == RenderForm(CreateForm, ArticlesFormData("", "", "/articles", map[]))
  {
    ReverseArticlesCollection("articles.store", map[]);
    RenderForm(CreateForm, ArticlesFormData("", "", URLFor("articles.store", map[]), map[]))
  }

  /** What `articlesStoreHandler` answers and leaves in the table, from
      `rows` and `nextId` to `rows'` and `nextId'`. An invalid submission
      re-renders the create form with what was submitted and the errors and
      writes nothing; a valid one is inserted unless `Prepare` or `Exec`
      fails, and the answer is 200 with the new id exactly when the insert
      reported a positive id, 500 otherwise (a row inserted without a reported
      id included). */
  predicate StoreAnswer(rows: map<int, Article>, nextId: int, title: string, body: string, fault: InsertFault,
                        resp: Response, rows': map<int, Article>, nextId': int)
    requires nextId >= 0
  {
    var ok := AcceptableForm(title, body);
    && (!ok ==>
          && resp == RenderForm(CreateForm, ArticlesFormData(title, body, "/articles", ValidateArticleFormData(title, body)))
          && rows' == rows && nextId' == nextId)
    && (ok && fault == InsertOk ==> resp == Text(OK, InsertedText + NatToDecimal(nextId)))
    && (ok && fault != InsertOk ==> resp == Text(InternalServerError, ServerErrorText))
    && (ok && (fault.PrepareFails? || fault.ExecFails?) ==> rows' == rows && nextId' == nextId)
    && (ok && (fault == InsertOk || fault == NoInsertId) ==>
          rows' == rows[nextId := Article(nextId, title, body)] && nextId' == nextId + 1)
  }

  /** `articlesStoreHandler`: validation, then the insert. */
  method ArticlesStoreHandler(store: ArticleStore, title: string, body: string, fault: InsertFault) returns (resp: Response)
    requires store.Valid()
    modifies store
    ensures store.Valid()
    ensures StoreAnswer(old(store.rows), old(store.nextId), title, body, fault, resp, store.rows, store.nextId)
    ensures resp.Text? && resp.code == OK <==> AcceptableForm(title, body) && fault == InsertOk
  {
    var errors := ValidateArticleFormData(title, body);
    if |errors| == 0 {
      var lastInsertId, err := store.Create(title, body, fault);
      if lastInsertId > 0 {
        resp := Text(OK, InsertedText + FormatInt(lastInsertId));
      } else {
        resp := Text(InternalServerError, ServerErrorText);
      }
    } else {
      ReverseArticlesCollection("articles.store", map[]);
      var storeURL := URLFor("articles.store", map[]);
      resp := RenderForm(CreateForm, ArticlesFormData(title, body, storeURL, errors));
    }
  }

  /** The end of `articlesUpdateHandler` as written: after an `Exec` error it
      writes the 500 answer and then falls through to `rs.RowsAffected()` on
      the nil result, which panics. */
  function FinishUpdateAsWritten(id: string, n: int, err: Option<DbError>): (resp: Response)
    requires IsDigits(id)
    ensures err.Some? ==> resp.Panicked?
    ensures err.None? ==> resp == FinishUpdate(id, n, err)
  {
    if err.Some? then Panicked
    else if n > 0 then Redirect(URLFor("articles.show", map[IdKey := id]))
    else Text(OK, NoChangesText)
  }

  /** The end of `articlesUpdateHandler` as evidently intended: 500 on an
      `Exec` error, a 302 to the article's page when a row changed, and 200
      "no changes" when none did. */
  function FinishUpdate(id: string, n: int, err: Option<DbError>): (resp: Response)
    requires IsDigits(id)
    ensures err.Some? ==> resp == Text(InternalServerError, ServerErrorText)
    ensures err.None? && n > 0 ==> resp == Redirect("/articles/" + id)
    ensures err.None? && n <= 0 ==> resp == Text(OK, NoChangesText)
  {
    ReverseArticleId("articles.show", id);
    if err.Some? then Text(InternalServerError, ServerErrorText)
    else if n > 0 then Redirect(URLFor("articles.show", map[IdKey := id]))
    else Text(OK, NoChangesText)
  }

  /** An `Exec` error makes the handler as written panic where a 500 answer
      was intended; otherwise the two agree. */
  lemma UpdateExecErrorPanics(id: string, e: DbError)
    requires IsDigits(id)
    ensures FinishUpdateAsWritten(id, 0, Some(e)) == Panicked
    ensures FinishUpdate(id, 0, Some(e)) == Text(InternalServerError, ServerErrorText)
  {
  }

  /** What `articlesUpdateHandler`, with the `Exec` error answered by 500,
      answers and leaves in the table, from `rows` to `rows'`. The lookup
      decides 404/500 before anything else; an invalid submission re-renders
      the edit form aimed at the same id; a valid one is written, and the
      answer is a redirect to the article exactly when a stored value changed. */
  predicate UpdateAnswer(rows: map<int, Article>, id: string, title: string, body: string,
                         lookupFault: Fault, execFault: Fault, resp: Response, rows': map<int, Article>)
    requires AllDigits(id)
  {
    var key := DecimalValue(id);
    var found := lookupFault == NoFault && key in rows;
    var ok := AcceptableForm(title, body);
    && (lookupFault.Fails? ==> resp == Text(InternalServerError, ServerErrorText) && rows' == rows)
    && (lookupFault == NoFault && key !in rows ==> resp == Text(NotFound, ArticleNotFoundText) && rows' == rows)
    && (found && !ok ==>
          && resp == RenderForm(EditForm, ArticlesFormData(title, body, "/articles/" + id, ValidateArticleFormData(title, body)))
          && rows' == rows)
    && (found && ok && execFault.Fails? ==> resp == Text(InternalServerError, ServerErrorText) && rows' == rows)
    && (found && ok && execFault == NoFault ==>
          && rows' == rows[key := Article(key, title, body)]
          && resp == if rows[key] != Article(key, title, body) then Redirect("/articles/" + id) else Text(OK, NoChangesText))
  }

  /** `articlesUpdateHandler` with the `Exec` error answered by 500: the
      lookup, validation, then the write. */
  method ArticlesUpdateHandler(store: ArticleStore, id: string, title: string, body: string, lookupFault: Fault, execFault: Fault)
    returns (resp: Response)
    requires store.Valid() && IsDigits(id)
    modifies store
    ensures store.Valid() && store.nextId == old(store.nextId)
    ensures resp != Panicked
    ensures UpdateAnswer(old(store.rows), id, title, body, lookupFault, execFault, resp, store.rows)
  {
    var found := store.GetByID(DecimalValue(id), lookupFault);
    if !found.Found? {
      resp := LookupFailure(found);
      return;
    }
    var errors := ValidateArticleFormData(title, body);
    if |errors| == 0 {
      var n, err := store.Update(DecimalValue(id), title, body, execFault);
      resp := FinishUpdate(id, n, err);
    } else {
      ReverseArticleId("articles.update", id);
      var updateURL := URLFor("articles.update", map[IdKey := id]);
      resp := RenderForm(EditForm, ArticlesFormData(title, body, updateURL, errors));
    }
  }

  /** What `articlesDeleteHandler` answers and leaves in the table, from
      `rows` to `rows'`: the lookup's 500 and 404, then 500 for a failed
      statement, and otherwise the row is gone and the answer redirects to
      the index. */
  predicate DeleteAnswer(rows: map<int, Article>, id: string, lookupFault: Fault, deleteFault: Fault,
                         resp: Response, rows': map<int, Article>)
    requires AllDigits(id)
  {
    var key := DecimalValue(id);
    var found := lookupFault == NoFault && key in rows;
    && (lookupFault.Fails? ==> resp == Text(InternalServerError, ServerErrorText) && rows' == rows)
    && (lookupFault == NoFault && key !in rows ==> resp == Text(NotFound, ArticleNotFoundText) && rows' == rows)
    && (found && deleteFault.Fails? ==> resp == Text(InternalServerError, ServerErrorText) && rows' == rows)
    && (found && deleteFault == NoFault ==> resp == Redirect("/articles") && rows' == rows - {key})
  }

  /** `articlesDeleteHandler`: after a successful lookup the row is deleted by
      the id it was read with; a redirect to the index answers a deletion, 404
      a deletion that removed nothing, 500 a failed statement. */
  method ArticlesDeleteHandler(store: ArticleStore, id: string, lookupFault: Fault, deleteFault: Fault)
    returns (resp: Response)
    requires store.Valid() && IsDigits(id)
    modifies store
    ensures store.Valid() && store.nextId == old(store.nextId)
    ensures DeleteAnswer(old(store.rows), id, lookupFault, deleteFault, resp, store.rows)
    ensures resp.Redirect? <==> store.rows != old(store.rows)
  {
    var found := store.GetByID(DecimalValue(id), lookupFault);
    if !found.Found? {
      resp := LookupFailure(found);
      return;
    }
    var rowsAffected, err := store.Delete(found.article.id, deleteFault);
    if err.Some? {
      resp := Text(InternalServerError, ServerErrorText);
    } else if rowsAffected > 0 {
      ReverseArticlesCollection("articles.index", map[]);
      resp := Redirect(URLFor("articles.index", map[]));
    } else {
      resp := Text(NotFound, ArticleNotFoundText);
    }
  }

  /** `articlesIndexHandler` as written: after a failed query it goes on to
      iterate the nil `*sql.Rows`, which panics. */
  method ArticlesIndexHandlerAsWritten(store: ArticleStore, fault: Fault) returns (resp: Response)
    requires store.Valid()
    ensures fault.Fails? <==> resp == Panicked
    ensures fault == NoFault ==> resp.RenderIndex?
    ensures resp.RenderIndex? ==>
      && IdsAscending(resp.articles)
      && (forall a :: a in resp.articles ==> a.id in store.rows && store.rows[a.id] == a)
      && (forall k :: k in store.rows ==> store.rows[k] in resp.articles)
  {
    var rows := store.ListAll(fault);
    if rows.Err? {
      resp := Panicked;
    } else {
      resp := RenderIndex(rows.value);
    }
  }

  /** What `articlesIndexHandler`, with the failed query answered by 500,
      answers over the table `rows`: otherwise the index template with every
      stored article once, in id order. */
  predicate IndexAnswer(rows: map<int, Article>, fault: Fault, resp: Response) {
    && (fault.Fails? <==> resp == Text(InternalServerError, ServerErrorText))
    && (fault == NoFault ==> resp.RenderIndex?)
    && (resp.RenderIndex? ==>
          && IdsAscending(resp.articles)
          && (forall a :: a in resp.articles ==> a.id in rows && rows[a.id] == a)
          && (forall k :: k in rows ==> rows[k] in resp.articles))
  }

  /** `articlesIndexHandler` as evidently intended: 500 when the query fails,
      otherwise the index template with every stored article once, in id
      order. */
  method ArticlesIndexHandler(store: ArticleStore, fault: Fault) returns (resp: Response)
    requires store.Valid()
    ensures IndexAnswer(store.rows, fault, resp)
  {
    var rows := store.ListAll(fault);
    if rows.Err? {
      resp := Text(InternalServerError, ServerErrorText);
    } else {
      resp := RenderIndex(rows.value);
    }
  }
}

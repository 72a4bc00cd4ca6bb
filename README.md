# goblog article endpoints, modelled in Dafny

goblog is a small blog backend written in Go. Visitors read articles. Authors
create, edit and delete them through HTML forms. The articles live in a MySQL
table. This project models the request-to-database path for articles in
`main.go` and proves its contracts:

- **Validation** (`validation.dfy`): `validateArticleFormData`. Strings are
  sequences of Unicode scalar values, so `|s|` is the rune count
  `utf8.RuneCountInString` gives.
- **Decimal** (`decimal.dfy`): `strconv.FormatInt` and digit strings. It also
  gives the number MySQL reads from a digit string bound as the id, so
  `/articles/007` names row 7.
- **Router / RouteTable** (`router.dfy`):
  - the nine named routes registered in `main`, kept as data;
  - path matching, where the `{id:[0-9]+}` placeholder takes non-empty digit strings only;
  - reverse URL generation (`router.Get(name).URL("id", v)`);
  - the `removeTrailingSlash` middleware.

  Proved about the table: reversing a route and matching the result give back
  the route and the id, route names are unique, and no request matches two
  routes.
- **Store** (`store.dfy`): the `articles` table as a class. It holds a
  `map<int, Article>` and the auto-increment counter. Its methods are
  `saveArticleToDB`, `getArticleByID`, the update statement, `Article.Delete`
  and the index query. Whether the database answers a statement is a
  parameter (`Fault`, `InsertFault`), so every error path the handlers branch
  on can happen.
- **Handlers** (`handlers.dfy`): the show, edit, create, store, update,
  delete and index handlers, plus `Article.Link`. `Article.Link` gives a URL
  string. Every handler gives a `Response` (`articlesCreateHandler`, which
  reads nothing, is a function; the others are methods over the table):
  - plain text with 200, 404 or 500;
  - a rendered template with its data;
  - a 302 redirect;
  - or a panic.

  The status codes follow RFC 9110: section 15.4.3 (302 Found), section
  15.5.5 (404 Not Found) and section 15.6.1 (500 Internal Server Error).
- **Server** (`server.dfy`): the middleware, then dispatch, then the handler.
- **Scenarios** (`scenarios.dfy`): request sequences whose outcome follows
  from the contracts alone: create then show (also through the whole
  server), delete twice, and an update that changes nothing.

## Model

| member | source | states |
|---|---|---|
| Validation.ValidateArticleFormData | main.go:297-314 | Only the keys `title` and `body` appear. `title` is present exactly when the title is empty or has fewer than 3 or more than 40 runes. An empty title gets the "required" message, never the length message. `body` is present exactly when the body is empty or has fewer than 10 runes. The body entry depends on the body alone. The map is empty exactly when the title has 3 to 40 runes and the body at least 10. |
| Validation.EmptyFormMissesBoth | main.go:300-311 | Both checks run, so an empty form gets both "required" messages at once. |
| Decimal.NatToDecimal | main.go:119 | `FormatInt` of a non-negative number is a non-empty digit string with no leading zero. |
| Decimal.DecimalValue | main.go:366-370 | The number MySQL reads from the id string bound in `WHERE id = ?` (also main.go:335-336): the digits' value, leading zeros included. It is 0 exactly when every digit is `0`. |
| Decimal.FormatInt | main.go:119 | A non-negative id is written as its canonical numeral. A negative id's numeral is `-` followed by the numeral of its magnitude, so it is not a digit string. |
| Decimal.DecimalValueOfNatToDecimal | main.go:366-370 | The numeral of n, bound as the id string, selects row n. |
| Decimal.NatToDecimalInjective | main.go:119 | Distinct ids have distinct numerals. |
| Decimal.LeadingZeroIgnored | main.go:366-370 | A leading zero in the id string does not change the row it selects. |
| Router.RemoveTrailingSlash | main.go:252-259 | `/` is left alone. Any other path ending in `/` loses exactly one `/`. A path without a trailing `/` is unchanged. |
| Router.StripsAppendedSlash | main.go:254-256 | Adding one `/` to a non-empty path is undone by the middleware. |
| Router.RemoveTrailingSlashNotIdempotent | main.go:255 | `a//` becomes `a/`, and only a second pass gives `a`. |
| Router.FirstMatch | main.go:423-433 | Dispatch in registration order. A result is a route from the list with the request's verb, and its pattern binds exactly the returned variables. No result means no route with that verb matches. |
| Router.Match | main.go:423-436 | The registered route a path reaches: a declared route of the request's verb. A path that does not start with `/` reaches none, and the not-found handler answers. |
| Router.Dispatch | main.go:446 | The router behind `removeTrailingSlash`: the path is rewritten, then matched. The result is a declared route of the request's verb, and a path that does not start with `/` reaches none. |
| Router.RouteNamed | main.go:423-433 | `router.Get(name)`: the registered route with that name, or none when no route has it. |
| Router.Expand | main.go:119 | A pattern filled from the `URL` pairs keeps one segment per pattern segment. It fails exactly when the pattern has the `{id:[0-9]+}` placeholder and `id` is missing or not a digit string, never with `UnknownRoute`. |
| Router.Reverse | main.go:119-123 | `router.Get(name).URL(...)`, used at main.go:119, 176, 228, 281, 344, 350, 396 and 443. A generated URL starts with `/`. The result is `Err(UnknownRoute)` exactly when no route has the name; the source would call `URL` on a nil route there, which no call site does. |
| Router.MatchPatternShape | main.go:426 | A matched literal equals its segment. A matched `{id:[0-9]+}` is a non-empty digit string. |
| RouteTable.MatchBindsDigits | main.go:426 | A route with the placeholder always hands its handler a digit string for `id`. |
| RouteTable.RouteNamesUnique | main.go:423-433 | No two registered routes share a name. |
| RouteTable.DeclaredRoute | main.go:423-433 | The POST routes are exactly store, update and delete. The placeholder appears exactly in show, edit, update and delete. |
| RouteTable.TableWellFormed | main.go:423-433 | `Routes` holds the nine registrations of `main` in order, with name, verb and pattern. Every literal segment of every pattern is non-empty and has no `/`. |
| RouteTable.MatchUnique | main.go:426-433 | No request matches two routes with the same verb, so `/articles/create` never reaches `articles.show`. |
| RouteTable.ReverseThenMatch | main.go:423-433 | The URL generated for any route and digit id is matched back to that route with that id. |
| RouteTable.TrailingSlashDispatch | main.go:446 | The same holds with a trailing `/` added, because the middleware runs before the router. |
| RouteTable.DispatchedRoute | main.go:423-436 | A dispatched request reaches a declared route of its own verb. A route with the placeholder receives a digit `id`. |
| RouteTable.ReverseArticleId | main.go:443 | `articles.show` and `articles.update` with a digit id give `/articles/<id>`, for example `/articles/23`. |
| RouteTable.ReverseArticlesCollection | main.go:176 | `articles.store` and `articles.index` give `/articles`. |
| RouteTable.ReverseBadId | main.go:119-123 | URL generation fails for a route with the placeholder when the id is missing or is not a digit string. |
| RouteTable.ReverseShowBadId | main.go:119-123 | URL generation for `articles.show` fails when the id is not a digit string. |
| RouteTable.CreateIsNotAnId | main.go:426-430 | `GET /articles/create` reaches the create form, although the show route is registered first. |
| RouteTable.NonNumericIdNotFound | main.go:426-436 | `GET /articles/abc` matches no route. |
| RouteTable.DispatchPathOf | main.go:426-436 | A path joined from non-empty segments without `/` is dispatched exactly as those segments are matched against the table in order. |
| Store.ArticleStore.constructor | main.go:46-53 | The table starts empty, and the counter starts at 1. |
| Store.ArticleStore.Create | main.go:195-225 | The result is a positive id with no error, or 0. A 0 comes with the Prepare/Exec error, or with no error when the insert ran but reported no id. The new row is stored under the counter's value, and the counter moves on. |
| Store.ArticleStore.GetByID | main.go:366-371 | The result is the stored row exactly when the id is present and the query succeeds. A missing id gives `NoRows` (`sql.ErrNoRows`). A failed query gives its own error. |
| Store.ArticleStore.Update | main.go:335-336 | One row is affected exactly when the row exists and a value changes. The row then holds the new title and body. A failed statement is taken to change nothing (see "## Left out"). |
| Store.ArticleStore.Delete | main.go:406-416 | The result is 1 and the row is gone when it existed. It is 0 when the row did not exist, and 0 with the error when the statement fails. |
| Store.ArticleStore.ListAll | main.go:128-140 | The loop collects the rows of a primary-key scan, `RowsBelow(rows, nextId)`. Every stored article appears exactly once, in ascending id order, or the query's error is returned. |
| Store.RowsBelowListing | main.go:132-137 | A scan up to a bound lists ascending ids and only stored rows, and it lists every stored row with a positive id below the bound. |
| Handlers.StatusOf | main.go:89-97 | A response carries 200, 302, 404 or 500. It is 302 exactly for a redirect and 200 for every rendered template. |
| Handlers.URLFor | main.go:176 | `url, _ := router.Get(name).URL(...)`, as at main.go:176, 228, 281, 344, 350 and 396: the error is dropped and the URL is `""` exactly when generation fails. Otherwise it is the generated URL, which starts with `/`. |
| Handlers.ArticleLink | main.go:118-125 | An article's link is `/articles/` followed by its id. For a negative id, which the router refuses, the link is `""`. |
| Handlers.LookupFailure | main.go:87-101 | `sql.ErrNoRows` gives 404 "文章未找到". Any other lookup error gives 500. |
| Handlers.ArticlesShowHandler | main.go:83-116 | A failed lookup gives 500 and a missing row gives 404. Otherwise the show page renders the row stored under the id's numeric value. |
| Handlers.ArticlesEditHandler | main.go:261-295 | Same 404/500 branching as show. Otherwise the edit form holds the stored title and body, and its target is `/articles/<id>`. |
| Handlers.ArticlesCreateHandler | main.go:227-243 | An empty create form with target `/articles` and no errors. |
| Handlers.ArticlesStoreHandler | main.go:153-193 | An invalid form is re-rendered with the submitted values and errors, and nothing is written. A valid form whose `Prepare` or `Exec` fails leaves the table and counter as they were, on the assumption under "## Left out" that a failed statement has no effect. Otherwise the row is stored under the counter's value and the counter moves on, also when no id is reported. The answer is 200 with the new id exactly when the insert reported a positive id, and 500 otherwise. |
| Handlers.FinishUpdateAsWritten | main.go:338-348 | As written, an `Exec` error leads to a panic. Without an error it agrees with `FinishUpdate`. |
| Handlers.FinishUpdate | main.go:338-348 | An `Exec` error gives 500. A changed row gives a 302 to `/articles/<id>`. No change gives 200 "您没做任何修改". |
| Handlers.UpdateExecErrorPanics | main.go:338-343 | On an `Exec` error the code as written panics where the intended answer is 500. |
| Handlers.ArticlesUpdateHandler | main.go:316-362 | A failed lookup gives 500 and a missing row gives 404, with no write. An invalid form re-renders the edit form with the submitted values, the errors and target `/articles/<id>`, with no write. A valid form is written. The answer is then a redirect when a value changed and 200 "no changes" otherwise. It never panics. |
| Handlers.ArticlesDeleteHandler | main.go:373-404 | A failed lookup gives 500 and a missing row gives 404. A failed delete gives 500. A successful delete removes exactly that row and redirects to `/articles`. A redirect happens exactly when the table changed. |
| Handlers.ArticlesIndexHandlerAsWritten | main.go:127-144 | As written, a failed query leads to a panic. Otherwise every stored article is rendered once, in id order. |
| Handlers.ArticlesIndexHandler | main.go:127-144 | A failed query gives 500. Otherwise every stored article is rendered once, in id order. |
| Server.Routed | main.go:423-436 | A request that matches no route has no position. A matched request's position holds the route the router picked, and that route has the request's verb. |
| Server.RoutedId | main.go:426-433 | The id handed to a handler is a digit string, and never empty for show, edit, update and delete. |
| Server.IndexOfDeclared | main.go:423-433 | Each registered route is found at its own position, because names are unique. |
| Server.RoutedGenerated | main.go:423-446 | A request for the URL generated for a route, with that route's verb and no trailing `/`, reaches that route, and a per-article route receives the id the URL was built with. |
| Server.Handle | main.go:423-433 | The handler registered at each position answers (`Answered`). Home and about give their texts, index lists every row or gives 500, and create gives the empty form. Show, edit, store, update and delete give exactly their handler's response and new table for the given id and database outcomes. No GET route changes the table, and no handler panics. |
| Server.Serve | main.go:423-446 | After the middleware, an unmatched request gets the 404 page and changes nothing. A matched request is answered by the handler at the matched route's position, with the `id` the router bound (`Answered`). No GET request changes the table, and no request panics. |
| Scenarios.CreateThenShow | main.go:160-164 | An article stored through the form is shown back unchanged at the id the success message announces. |
| Scenarios.DeleteTwice | main.go:389-400 | The first delete redirects to the index. A second delete, or a show of the same id, answers 404. |
| Scenarios.UpdateWithSameValues | main.go:343-348 | Resubmitting the stored values answers 200 "no changes" and leaves the table unchanged. |
| Scenarios.StoreShortTitle | main.go:157-192 | A two-rune title is sent back with a title error only. A valid form is stored under the next id. |
| Scenarios.StorePathRouted | main.go:428 | `POST /articles` reaches the store route. |
| Scenarios.ShowPathRouted | main.go:426 | `GET /articles/<n>` reaches the show route, with the numeral of `n` as the id. |
| Scenarios.ArticlePathsRouted | main.go:426-428 | `POST /articles` reaches the store route. `GET /articles/<n>` reaches the show route, with the numeral of `n` as the id. |
| Scenarios.PostThenGet | main.go:153-164 | Through the whole server: a valid form posted to the store route answers 200 with the new id. A GET routed to the show route with that id then shows the same title and body. |

## Findings

| source | as written | input that shows it | evidently intended | confidence | as-written member | corrected member |
|---|---|---|---|---|---|---|
| main.go:338-343 | After an `Exec` error the handler writes the 500 answer and does not return. It falls through to `rs.RowsAffected()`, and `rs` is a nil `sql.Result`, so the call panics. | `POST /articles/5` with a valid form, while the UPDATE fails (for example, the connection drops after the lookup). | Return after the 500 answer. | high, not executed | Handlers.FinishUpdateAsWritten | Handlers.FinishUpdate |
| main.go:128-137 | A failed `db.Query` is only logged. The loop then calls `rows.Next()` on the nil `*sql.Rows`, which panics. | `GET /articles` while the database is unreachable. | Answer 500 and stop. | high, not executed | Handlers.ArticlesIndexHandlerAsWritten | Handlers.ArticlesIndexHandler |

The rest of the model uses the corrected members, including `Server.Handle`,
`Server.Serve` and `Handlers.ArticlesUpdateHandler`.

## Left out

- Database bootstrap is not modelled: DSN, pool limits, `Ping`, `CREATE TABLE` (main.go:24-53, `pkg/database/database.go`). It is I/O with nothing to state. The starting state is an empty table (`ArticleStore.constructor`).
- `pkg/model/model.go` is not part of this model. It is a GORM connection the handlers never use.
- Templates are not modelled: `template.ParseFiles`, `Execute`, and the `RouteName2URL` and `Int64ToString` helpers. A rendered response records only which template got which data. So the `panic(err)` on a missing create template (main.go:183-186, 235-238) and the nil-template crash after a logged parse error (main.go:108-110, 141-143, 288-290, 357-359) are not modelled.
- `logger.LogError` is left out. It is output only.
- `forceHTMLMiddleware` (the Content-Type header) is left out.
- Reading the form (`PostFormValue`) is left out. The request carries the title and body directly.
- The home, about and not-found pages are constant texts inside `Server.Handle` and `Server.Serve`.
- Router library behaviour beyond the declared table is left out:
  - A path that matches a route with another verb (for example `GET /articles/5/delete`) goes to the not-found handler in the model. The library answers 405 instead.
  - Path cleaning of `//` and `.` is not modelled.
  - Reversing an unregistered name gives `UnknownRoute`. The library would hand back a nil route, and the code never does this.
- A failed statement is assumed to have had no effect: a `Fault` or `InsertFault` on `Create`, `Update` or `Delete` leaves the rows as they were, and a failed insert does not advance the AUTO_INCREMENT counter. MySQL decides this, not main.go. InnoDB can lose an auto-increment value on a failed insert, and a dropped connection can report an error for a write that was committed. `ArticlesStoreHandler`'s unchanged table on a Prepare/Exec failure rests on this assumption.
- Requests run one at a time. The race between `getArticleByID` and a later update or delete is not modelled, so `ArticlesDeleteHandler`'s 0-rows-affected branch (main.go:398-400) exists in the model but cannot be reached.
- Ids are unbounded integers. 64-bit overflow of `int64` and `bigint(20)` is not modelled. Neither is MySQL's conversion of digit strings longer than a `bigint`.
- Store.ArticleStore.ListAll: `SELECT * FROM articles` has no `ORDER BY`. The model fixes primary-key order, which is the order InnoDB's full scan gives. Per-row `Scan` errors and `rows.Err()` are not modelled.
- Store.ArticleStore.Update follows MySQL's default affected-rows count, which counts changed rows only. A connection with `clientFoundRows` would count matched rows.
- The DELETE statement's SQL text is not modelled. It is built by string concatenation (main.go:407), and the model treats it only as a delete by id.
- Invalid UTF-8 input is not modelled. Strings are well-formed sequences of Unicode scalar values.

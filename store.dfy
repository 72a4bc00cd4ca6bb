/** The `articles` table (`id` auto-increment primary key, `title`, `body`) and
    the statements the handlers run against it: `saveArticleToDB`,
    `getArticleByID`, the `UPDATE ... WHERE id = ?` of the update handler,
    `Article.Delete` and the `SELECT * FROM articles` of the index handler.
    Whether the database answers a statement is not something the code
    decides, so each method takes the backend's outcome as a parameter. */
module Store {
  import opened Wrappers

  datatype Article = Article(id: int, title: string, body: string)

  /** An error returned by the driver: lost connection, syntax, constraint. */
  datatype DbError = DbError(reason: string)

  /** How the backend answers one statement. */
  datatype Fault = NoFault | Fails(err: DbError)

  /** How the backend answers the insert: `db.Prepare` or `stmt.Exec` can
      fail, or the insert can run without `LastInsertId` reporting an id. */
  datatype InsertFault = InsertOk | PrepareFails(err: DbError) | ExecFails(err: DbError) | NoInsertId

  /** The outcome of `getArticleByID`: the row, `sql.ErrNoRows`, or another
      error. */
  datatype Lookup = Found(article: Article) | NoRows | LookupFailed(err: DbError)

  /** Strictly increasing ids. */
  predicate IdsAscending(articles: seq<Article>) {
    forall j, k :: 0 <= j < k < |articles| ==> articles[j].id < articles[k].id
  }

  /** The rows with ids from 1 up to, not including, `bound`, in ascending
      id order: what a full scan of the primary key yields. */
  function RowsBelow(rows: map<int, Article>, bound: int): seq<Article>
    decreases bound
  {
    if bound <= 1 then []
    else RowsBelow(rows, bound - 1) + (if bound - 1 in rows then [rows[bound - 1]] else [])
  }

  /** When every row is stored under its own id, the scan lists ascending ids,
      lists only stored rows, and lists every stored row with a positive id
      below the bound. */
  lemma {:induction false} RowsBelowListing(rows: map<int, Article>, bound: int)
    requires forall id :: id in rows ==> rows[id].id == id
    ensures IdsAscending(RowsBelow(rows, bound))
    ensures forall a :: a in RowsBelow(rows, bound) ==> a.id in rows && rows[a.id] == a && a.id < bound
    ensures forall id :: id in rows && 0 < id < bound ==> rows[id] in RowsBelow(rows, bound)
    decreases bound
  {
    if bound > 1 {
      RowsBelowListing(rows, bound - 1);
      var prefix := RowsBelow(rows, bound - 1);
      var tail := if bound - 1 in rows then [rows[bound - 1]] else [];
      assert RowsBelow(rows, bound) == prefix + tail;
      forall a | a in prefix + tail ensures a in prefix || a in tail {
      }
    }
  }

  class ArticleStore {
    /** The rows of the table, by primary key. */
    var rows: map<int, Article>
    /** The table's `AUTO_INCREMENT` counter: the id the next insert gets. */
    var nextId: int

    /** Every row is stored under its own id, ids are positive, and the
        counter is above every id ever handed out. */
    ghost predicate Valid()
      reads this
    {
      && nextId >= 1
      && forall id :: id in rows ==> 0 < id < nextId && rows[id].id == id
    }

    /** The table as `CREATE TABLE IF NOT EXISTS` leaves it the first time. */
    constructor ()
      ensures Valid() && rows == map[] && nextId == 1
    {
      rows := map[];
      nextId := 1;
    }

    /** `saveArticleToDB`: either a positive id and no error, or 0 together
        with the error from `Prepare`/`Exec` or, when the insert ran but no
        id was reported, with no error at all. */
    method Create(title: string, body: string, fault: InsertFault) returns (id: int, err: Option<DbError>)
      requires Valid()
      modifies this
      ensures Valid()
      ensures (id > 0 && err == None) || id == 0
      ensures fault == InsertOk ==>
        && id == old(nextId) && err == None
        && rows == old(rows)[id := Article(id, title, body)] && nextId == old(nextId) + 1
      ensures fault.PrepareFails? || fault.ExecFails? ==>
        id == 0 && err == Some(fault.err) && rows == old(rows) && nextId == old(nextId)
      ensures fault == NoInsertId ==>
        && id == 0 && err == None
        && rows == old(rows)[old(nextId) := Article(old(nextId), title, body)] && nextId == old(nextId) + 1
    {
      if fault.PrepareFails? || fault.ExecFails? {
        return 0, Some(fault.err);
      }
      var inserted := nextId;
      rows := rows[inserted := Article(inserted, title, body)];
      nextId := nextId + 1;
      if fault == InsertOk {
        return inserted, None;
      }
      return 0, None;
    }

    /** `getArticleByID`: the row stored under `id`, `NoRows` when there is
        none, or the backend's error. */
    method GetByID(id: int, fault: Fault) returns (r: Lookup)
      requires Valid()
      ensures fault.Fails? ==> r == LookupFailed(fault.err)
      ensures r.LookupFailed? ==> fault == Fails(r.err)
      ensures fault == NoFault ==> (r.Found? <==> id in rows)
      ensures r.Found? ==> id in rows && r.article == rows[id] && r.article.id == id
      ensures r == NoRows ==> id !in rows
    {
      if fault.Fails? {
        return LookupFailed(fault.err);
      }
      if id in rows {
        return Found(rows[id]);
      }
      return NoRows;
    }

    /** The update statement. The result is MySQL's affected-row count, which
        counts changed rows only: 1 when the row exists and the new title or
        body differs from the stored one, 0 otherwise; nothing else moves. */
    method Update(id: int, title: string, body: string, fault: Fault) returns (n: int, err: Option<DbError>)
      requires Valid()
      modifies this
      ensures Valid() && nextId == old(nextId)
      ensures fault.Fails? ==> n == 0 && err == Some(fault.err) && rows == old(rows)
      ensures fault == NoFault ==> err == None
      ensures fault == NoFault ==>
        (n > 0 <==> id in old(rows) && old(rows)[id] != Article(id, title, body))
      ensures fault == NoFault && id in old(rows) ==> rows == old(rows)[id := Article(id, title, body)]
      ensures fault == NoFault && id !in old(rows) ==> rows == old(rows)
      ensures 0 <= n <= 1
    {
      if fault.Fails? {
        return 0, Some(fault.err);
      }
      if id !in rows {
        return 0, None;
      }
      n := if rows[id] != Article(id, title, body) then 1 else 0;
      rows := rows[id := Article(id, title, body)];
      err := None;
    }

    /** `Article.Delete`: 1 and the row removed when it exists, 0 when it does
        not, 0 and the error when the statement fails. */
    method Delete(id: int, fault: Fault) returns (n: int, err: Option<DbError>)
      requires Valid()
      modifies this
      ensures Valid() && nextId == old(nextId)
      ensures fault.Fails? ==> n == 0 && err == Some(fault.err) && rows == old(rows)
      ensures fault == NoFault ==> err == None && (n > 0 <==> id in old(rows))
      ensures fault == NoFault ==> rows == old(rows) - {id}
      ensures n == 0 || n == 1
    {
      if fault.Fails? {
        return 0, Some(fault.err);
      }
      n := if id in rows then 1 else 0;
      rows := rows - {id};
      err := None;
    }

    /** `SELECT * FROM articles` read row by row: every stored article exactly
        once, in primary-key order (the order a full scan of the clustered
        index yields; the statement itself asks for no order). */
    method ListAll(fault: Fault) returns (r: Result<seq<Article>, DbError>)
      requires Valid()
      ensures fault.Fails? ==> r == Err(fault.err)
      ensures fault == NoFault ==> r.Ok?
      ensures r.Ok? ==> r.value == RowsBelow(rows, nextId)
      ensures r.Ok? ==> IdsAscending(r.value)
      ensures r.Ok? ==> forall a :: a in r.value ==> a.id in rows && rows[a.id] == a
      ensures r.Ok? ==> forall id :: id in rows ==> rows[id] in r.value
      ensures r.Ok? ==> |r.value| == |rows|
    {
      if fault.Fails? {
        return Err(fault.err);
      }
      var articles: seq<Article> := [];
      ghost var seen: set<int> := {};
      for i := 1 to nextId
        invariant articles == RowsBelow(rows, i)
        invariant seen <= rows.Keys && |articles| == |seen|
        invariant forall id :: id in rows && id < i <==> id in seen
      {
        if i in rows {
          assert i !in seen;
          seen := seen + {i};
          articles := articles + [rows[i]];
        }
      }
      assert seen == rows.Keys;
      RowsBelowListing(rows, nextId);
      return Ok(articles);
    }
  }
}

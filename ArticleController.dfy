/**
 * The article handlers: create, read, update and delete articles (mutation
 * only by the article's owner), the offset-paginated article list with a
 * title keyword, comments on an article with their cursor-paginated list,
 * and likes as (article, user) pairs.
 */
module ArticleController {
  import opened Wrappers
  import opened Errors
  import opened Records
  import opened Http
  import opened Query
  import opened Database

  /** The validated body of a create request. */
  datatype ArticleInput = ArticleInput(title: string, content: string, image: Option<string>)

  /** The validated body of an update request: each field may be left out (undefined). */
  datatype ArticlePatch = ArticlePatch(title: Option<string>, content: Option<string>, image: Option<Option<string>>)

  /** The validated query of the comment list. */
  datatype CommentQuery = CommentQuery(cursor: Option<int>, limit: nat)

  const ArticleOwnerOnly := "Should be the owner of the article"

  // ---- Views ----

  /** An article with `likeCount` and, for a signed-in caller, `isLiked`, from the likes included with it. */
  function ArticleViewOf(a: Article, likes: seq<Like>, callerId: CallerId): (v: ArticleView)
    ensures v.article == a && (v.isLiked.None? <==> callerId.None?)
    ensures callerId.Some? ==>
              (v.isLiked.value <==> exists l :: l in likes && l.articleId == a.id && l.userId == callerId.value)
  {
    var own := Filter(likes, LikeOnArticle(a.id));
    ArticleView(a, |own|, if callerId.None? then None else Some(exists l :: l in own && l.userId == callerId.value))
  }

  /**
   * `likeCount` is the number of likes on the article; `isLiked` is absent for
   * an anonymous caller, and otherwise says whether one of those likes is the caller's.
   */
  lemma ArticleViewCounts(a: Article, likes: seq<Like>, callerId: CallerId)
    ensures ArticleViewOf(a, likes, callerId).article == a
    ensures ArticleViewOf(a, likes, callerId).likeCount == Count(likes, LikeOnArticle(a.id))
    ensures ArticleViewOf(a, likes, callerId).isLiked.None? <==> callerId.None?
    ensures callerId.Some? ==>
              (ArticleViewOf(a, likes, callerId).isLiked.value
               <==> exists l :: l in likes && l.articleId == a.id && l.userId == callerId.value)
  {
    CountIsFilterLength(likes, LikeOnArticle(a.id));
  }

  // ---- getArticle ----

  function GetArticle(db: Db, callerId: CallerId, idParam: Result<int, string>): (r: Result<Response, Thrown>)
    reads db
    ensures idParam.Err? ==> r == Err(StructError(idParam.error))
    ensures idParam.Ok? && (forall a :: a in db.articles ==> a.id != idParam.value) ==>
              r == Err(Raised(NotFoundError("article", idParam.value)))
    ensures idParam.Ok? && (exists a :: a in db.articles && a.id == idParam.value) ==>
              r.Ok? && r.value.status == 200 && r.value.body.ArticleViewBody?
              && r.value.body.view.article in db.articles && r.value.body.view.article.id == idParam.value
              && r.value.body.view == ArticleViewOf(r.value.body.view.article, db.likes, callerId)
  {
    if idParam.Err? then Err(StructError(idParam.error))
    else
      var id := idParam.value;
      var article := First(db.articles, ArticleWithId(id));
      if article.None? then Err(Raised(NotFoundError("article", id)))
      else Ok(Response(200, ArticleViewBody(ArticleViewOf(article.value, db.likes, callerId))))
  }

  // ---- getArticleList ----

  /** The `where` of the list: no filter without a (non-empty) keyword, a title match otherwise. */
  predicate TitleMatches(keyword: Option<string>, a: Article) {
    !TruthyString(keyword) || Contains(a.title, keyword.value)
  }

  function TitleFilter(keyword: Option<string>): Article -> bool {
    (a: Article) => TitleMatches(keyword, a)
  }

  /** `createdAt` descending for "recent", `id` ascending otherwise. */
  function OrderArticles(rows: seq<Article>, orderBy: string): seq<Article> {
    if orderBy == "recent" then SortByKey(rows, ArticleCreatedAtKey, true)
    else SortByKey(rows, ArticleIdKey, false)
  }

  predicate InListOrder(orderBy: string, a: Article, b: Article) {
    if orderBy == "recent" then a.createdAt >= b.createdAt else a.id <= b.id
  }

  function ArticleViews(rows: seq<Article>, likes: seq<Like>, callerId: CallerId): (r: seq<ArticleView>)
    ensures |r| == |rows| && forall i :: 0 <= i < |rows| ==> r[i] == ArticleViewOf(rows[i], likes, callerId)
  {
    seq(|rows|, i requires 0 <= i < |rows| => ArticleViewOf(rows[i], likes, callerId))
  }

  /** An offset page of the ordered matches: its length, its rows and their order. */
  lemma ArticlePageFacts(articles: seq<Article>, keyword: Option<string>, orderBy: string, skip: nat, take: nat)
    ensures var matches := Filter(articles, TitleFilter(keyword));
            var page := OffsetPage(OrderArticles(matches, orderBy), skip, take);
            && |page| == PageLength(|matches|, skip, take)
            && (forall a :: a in page ==> a in articles && TitleMatches(keyword, a))
            && (forall i, j :: 0 <= i < j < |page| ==> InListOrder(orderBy, page[i], page[j]))
  {
    var matches := Filter(articles, TitleFilter(keyword));
    var ordered := OrderArticles(matches, orderBy);
    OffsetPageRows(ordered, skip, take);
    if orderBy == "recent" {
      SortKeepsRows(matches, ArticleCreatedAtKey, true);
      OffsetPageSorted(ordered, skip, take, ArticleCreatedAtKey, true);
    } else {
      SortKeepsRows(matches, ArticleIdKey, false);
      OffsetPageSorted(ordered, skip, take, ArticleIdKey, false);
    }
  }

  function GetArticleList(db: Db, callerId: CallerId, query: Result<OffsetQuery, string>): (r: Result<Response, Thrown>)
    reads db
    ensures query.Err? ==> r == Err(StructError(query.error))
    ensures query.Ok? ==> r.Ok? && r.value.status == 200 && r.value.body.ArticleListBody?
    ensures query.Ok? ==>
              var q, list, total := query.value, r.value.body.articles, r.value.body.totalCount;
              && total == |Filter(db.articles, TitleFilter(q.keyword))|
              && |list| == PageLength(total, Skip(q), q.pageSize)
              && (forall i :: 0 <= i < |list| ==>
                    list[i].article in db.articles && TitleMatches(q.keyword, list[i].article)
                    && list[i] == ArticleViewOf(list[i].article, db.likes, callerId))
              && (forall i, j :: 0 <= i < j < |list| ==> InListOrder(q.orderBy, list[i].article, list[j].article))
  {
    if query.Err? then Err(StructError(query.error))
    else
      var q := query.value;
      var where := TitleFilter(q.keyword);
      var totalCount := Count(db.articles, where);
      CountIsFilterLength(db.articles, where);
      var page := OffsetPage(OrderArticles(Filter(db.articles, where), q.orderBy), Skip(q), q.pageSize);
      ArticlePageFacts(db.articles, q.keyword, q.orderBy, Skip(q), q.pageSize);
      Ok(Response(200, ArticleListBody(ArticleViews(page, db.likes, callerId), totalCount)))
  }

  /**
   * Proof of the list's contract: the page is a slice of the ordered matches.
   * What "ordered" means lives in `Query.SortByKey`'s contract: the result is a
   * permutation of the matches, sorted by the chosen key (see also `ArticlePageFacts`).
   */
  lemma GetArticleListPage(db: Db, callerId: CallerId, q: OffsetQuery)
    ensures var body := GetArticleList(db, callerId, Ok(q)).value.body;
            var matches := Filter(db.articles, TitleFilter(q.keyword));
            var ordered := OrderArticles(matches, q.orderBy);
            && body.totalCount == |matches| && |ordered| == |matches|
            && (forall i :: 0 <= i < |body.articles| ==> body.articles[i].article == ordered[Skip(q) + i])
  {
    CountIsFilterLength(db.articles, TitleFilter(q.keyword));
  }

  /** Without a keyword (absent or empty) every article matches; the total is independent of the page asked for. */
  lemma ArticleListTotals(db: Db, callerId: CallerId, q1: OffsetQuery, q2: OffsetQuery)
    requires q1.keyword == q2.keyword
    ensures GetArticleList(db, callerId, Ok(q1)).value.body.totalCount
            == GetArticleList(db, None, Ok(q2)).value.body.totalCount
    ensures !TruthyString(q1.keyword) ==> GetArticleList(db, callerId, Ok(q1)).value.body.totalCount == |db.articles|
  {
    if !TruthyString(q1.keyword) {
      FilterKeepsAll(db.articles, TitleFilter(q1.keyword));
    }
  }

  // ---- getCommentList ----

  /**
   * The comments of one article, newest first, starting at the row whose id
   * is the cursor (a cursor of 0 is falsy and means no cursor; a cursor naming
   * no row of the list gives nothing), at most `take` of them.
   */
  function FetchComments(comments: seq<Comment>, articleId: int, cursor: Option<int>, take: nat): seq<Comment> {
    FetchFrom(ArticleComments(comments, articleId), cursor, take)
  }

  /** At most `take` of the ordered rows, from where the cursor starts. */
  function FetchFrom(ordered: seq<Comment>, cursor: Option<int>, take: nat): seq<Comment> {
    OffsetPage(ordered, CursorStart(ordered, cursor), take)
  }

  /** The comments of one article, newest first. */
  function ArticleComments(comments: seq<Comment>, articleId: int): seq<Comment> {
    SortByKey(Filter(comments, CommentOnArticle(articleId)), CommentCreatedAtKey, true)
  }

  /** Where a cursor starts the page: at its row when it is truthy, at the top otherwise. */
  function CursorStart(ordered: seq<Comment>, cursor: Option<int>): nat {
    if cursor.Some? && cursor.value != 0 then FirstIndex(ordered, CommentWithId(cursor.value)) else 0
  }

  datatype CommentPage = CommentPage(list: seq<Comment>, nextCursor: Option<int>)

  /** The first `limit` fetched rows, and the id of the last fetched row as the next cursor. */
  function CursorPage(fetched: seq<Comment>, limit: nat): (p: CommentPage)
    ensures |p.list| <= limit && p.list <= fetched
    ensures |fetched| <= limit ==> p.list == fetched
    ensures |fetched| > limit ==> |p.list| == limit
    ensures p.nextCursor.None? <==> fetched == []
  {
    var comments := if |fetched| <= limit then fetched else fetched[..limit];
    var nextCursor := if fetched == [] then None else Some(fetched[|fetched| - 1].id);
    CommentPage(comments, nextCursor)
  }

  /**
   * When one row more than the limit was fetched, the cursor is the id of the
   * first row left off the page; otherwise it is the id of the page's own last row.
   */
  lemma CursorPageNext(fetched: seq<Comment>, limit: nat)
    requires fetched != [] && |fetched| <= limit + 1
    ensures |fetched| == limit + 1 ==>
              CursorPage(fetched, limit).list + [fetched[limit]] == fetched
              && CursorPage(fetched, limit).nextCursor == Some(fetched[limit].id)
    ensures |fetched| <= limit ==>
              var p := CursorPage(fetched, limit); p.nextCursor == Some(p.list[|p.list| - 1].id)
  {
    if |fetched| == limit + 1 {
      assert fetched[..limit] + [fetched[limit]] == fetched;
    }
  }

  /** The listed comments are fetched ones, in the fetched order. */
  lemma CursorPageKeepsOrder(fetched: seq<Comment>, limit: nat)
    requires forall i, j :: 0 <= i < j < |fetched| ==> fetched[i].createdAt >= fetched[j].createdAt
    ensures var list := CursorPage(fetched, limit).list;
            && (forall c :: c in list ==> c in fetched)
            && (forall i, j :: 0 <= i < j < |list| ==> list[i].createdAt >= list[j].createdAt)
  {
    var list := CursorPage(fetched, limit).list;
    assert forall i :: 0 <= i < |list| ==> list[i] == fetched[i];
  }

  /** What the comment list answers for an existing article: the first `limit` of `limit + 1` fetched rows. */
  function ListedComments(comments: seq<Comment>, articleId: int, q: CommentQuery): CommentPage {
    CursorPage(FetchComments(comments, articleId, q.cursor, q.limit + 1), q.limit)
  }

  /** A listed page: at most `limit` comments of the article, newest first. */
  lemma CommentPageFacts(comments: seq<Comment>, articleId: int, cursor: Option<int>, limit: nat)
    ensures var list := ListedComments(comments, articleId, CommentQuery(cursor, limit)).list;
            && |list| <= limit
            && (forall c :: c in list ==> c in comments && c.articleId == articleId)
            && (forall i, j :: 0 <= i < j < |list| ==> list[i].createdAt >= list[j].createdAt)
  {
    var fetched := FetchComments(comments, articleId, cursor, limit + 1);
    FetchedCommentsBelong(comments, articleId, cursor, limit + 1);
    PageOfFetched(ListedComments(comments, articleId, CommentQuery(cursor, limit)).list, fetched, comments, articleId, limit);
  }

  /** The page of a fetch of the article's comments, newest first, is such a list itself. */
  lemma PageOfFetched(list: seq<Comment>, fetched: seq<Comment>, comments: seq<Comment>, articleId: int, limit: nat)
    requires list == CursorPage(fetched, limit).list
    requires forall c :: c in fetched ==> c in comments && c.articleId == articleId
    requires forall i, j :: 0 <= i < j < |fetched| ==> fetched[i].createdAt >= fetched[j].createdAt
    ensures |list| <= limit
    ensures forall c :: c in list ==> c in comments && c.articleId == articleId
    ensures forall i, j :: 0 <= i < j < |list| ==> list[i].createdAt >= list[j].createdAt
  {
    CursorPageKeepsOrder(fetched, limit);
  }

  /** The page of the article's comments at the cursor, and the cursor for the next request. */
  function GetCommentList(db: Db, articleParam: Result<int, string>, query: Result<CommentQuery, string>)
    : (r: Result<Response, Thrown>)
    reads db
    ensures articleParam.Err? ==> r == Err(StructError(articleParam.error))
    ensures articleParam.Ok? && query.Err? ==> r == Err(StructError(query.error))
    ensures articleParam.Ok? && query.Ok? && (forall a :: a in db.articles ==> a.id != articleParam.value) ==>
              r == Err(Raised(NotFoundError("article", articleParam.value)))
    ensures articleParam.Ok? && query.Ok? && (exists a :: a in db.articles && a.id == articleParam.value) ==>
              var p := ListedComments(db.comments, articleParam.value, query.value);
              r == Ok(Response(200, CommentListBody(p.list, p.nextCursor)))
  {
    if articleParam.Err? then Err(StructError(articleParam.error))
    else if query.Err? then Err(StructError(query.error))
    else
      var articleId, q := articleParam.value, query.value;
      var article := First(db.articles, ArticleWithId(articleId));
      if article.None? then Err(Raised(NotFoundError("article", articleId)))
      else
        var page := ListedComments(db.comments, articleId, q);
        Ok(Response(200, CommentListBody(page.list, page.nextCursor)))
  }

  /** Fetched comments are comments of the article, newest first, at most `take` of them. */
  lemma FetchedCommentsBelong(comments: seq<Comment>, articleId: int, cursor: Option<int>, take: nat)
    ensures var f := FetchComments(comments, articleId, cursor, take);
            && |f| <= take
            && (forall c :: c in f ==> c in comments && c.articleId == articleId)
            && (forall i, j :: 0 <= i < j < |f| ==> f[i].createdAt >= f[j].createdAt)
  {
    var mine := Filter(comments, CommentOnArticle(articleId));
    var ordered := ArticleComments(comments, articleId);
    SortKeepsRows(mine, CommentCreatedAtKey, true);
    OffsetPageRows(ordered, CursorStart(ordered, cursor), take);
    OffsetPageSorted(ordered, CursorStart(ordered, cursor), take, CommentCreatedAtKey, true);
  }

  /** A page shorter than `take` runs to the end of the rows. */
  lemma ShortPageIsTail(rows: seq<Comment>, skip: nat, take: nat)
    requires 0 < |OffsetPage(rows, skip, take)| < take
    ensures var page := OffsetPage(rows, skip, take); page[|page| - 1] == rows[|rows| - 1]
  {
  }

  /** In rows whose ids identify them, the id of the last row is found at the last index. */
  lemma LastIdFoundLast(rows: seq<Comment>)
    requires rows != []
    requires forall x, y :: x in rows && y in rows && x.id == y.id ==> x == y
    requires Distinct(rows)
    ensures FirstIndex(rows, CommentWithId(rows[|rows| - 1].id)) == |rows| - 1
  {
    var k := FirstIndex(rows, CommentWithId(rows[|rows| - 1].id));
    if k < |rows| - 1 {
      assert rows[k] == rows[|rows| - 1];
    }
  }

  /** The comments of an article are distinct rows of the table, each with its own positive id. */
  lemma ArticleCommentsIdentified(comments: seq<Comment>, next: int, articleId: int)
    requires KeysDistinct(comments, CommentIdKey) && KeysBelow(comments, CommentIdKey, next)
    ensures var ordered := ArticleComments(comments, articleId);
            && Distinct(ordered)
            && (forall x :: x in ordered ==> x in comments && x.id >= 1)
            && (forall x, y :: x in ordered && y in ordered && x.id == y.id ==> x == y)
  {
    var mine := Filter(comments, CommentOnArticle(articleId));
    KeysIdentifyRows(comments, CommentIdKey);
    DistinctIsPairwise(comments);
    FilterPairwise(comments, CommentOnArticle(articleId), Different());
    DistinctIsPairwise(mine);
    SortDistinct(mine, CommentCreatedAtKey, true);
    SortKeepsRows(mine, CommentCreatedAtKey, true);
  }

  /**
   * On ordered rows with distinct positive ids: a page that lists fewer than
   * `limit` rows has the id of its last row as cursor, and the page at that
   * cursor lists that row alone, with the same cursor.
   */
  lemma FinalPageOnOrdered(ordered: seq<Comment>, cursor: Option<int>, limit: nat)
    requires Distinct(ordered)
    requires forall x :: x in ordered ==> x.id >= 1
    requires forall x, y :: x in ordered && y in ordered && x.id == y.id ==> x == y
    requires 0 < |CursorPage(FetchFrom(ordered, cursor, limit + 1), limit).list| < limit
    ensures var p := CursorPage(FetchFrom(ordered, cursor, limit + 1), limit);
            && p.nextCursor == Some(p.list[|p.list| - 1].id)
            && CursorPage(FetchFrom(ordered, p.nextCursor, limit + 1), limit) == CommentPage([p.list[|p.list| - 1]], p.nextCursor)
  {
    var fetched := FetchFrom(ordered, cursor, limit + 1);
    ShortListShortFetch(ordered, cursor, limit);
    CursorPageNext(fetched, limit);
    ShortFetchEndsLast(ordered, cursor, limit);
    FetchFromLast(ordered, limit);
  }

  lemma ShortListShortFetch(ordered: seq<Comment>, cursor: Option<int>, limit: nat)
    requires 0 < |CursorPage(FetchFrom(ordered, cursor, limit + 1), limit).list| < limit
    ensures 0 < |FetchFrom(ordered, cursor, limit + 1)| <= limit
  {
  }

  lemma ShortFetchEndsLast(ordered: seq<Comment>, cursor: Option<int>, limit: nat)
    requires 0 < |FetchFrom(ordered, cursor, limit + 1)| <= limit
    ensures var f := FetchFrom(ordered, cursor, limit + 1); f[|f| - 1] == ordered[|ordered| - 1]
  {
    ShortPageIsTail(ordered, CursorStart(ordered, cursor), limit + 1);
  }

  /** With ids that identify rows, fetching from the last row's id gives that row alone. */
  lemma FetchFromLast(ordered: seq<Comment>, limit: nat)
    requires Distinct(ordered) && ordered != []
    requires forall x :: x in ordered ==> x.id >= 1
    requires forall x, y :: x in ordered && y in ordered && x.id == y.id ==> x == y
    ensures FetchFrom(ordered, Some(ordered[|ordered| - 1].id), limit + 1) == [ordered[|ordered| - 1]]
  {
    assert ordered[|ordered| - 1] in ordered;
    LastIdFoundLast(ordered);
  }

  /** The comment list reads the article's comments only through their order. */
  lemma ListedFromOrdered(comments: seq<Comment>, articleId: int, q: CommentQuery)
    ensures ListedComments(comments, articleId, q)
            == CursorPage(FetchFrom(ArticleComments(comments, articleId), q.cursor, q.limit + 1), q.limit)
  {
  }

  /** The listing for a cursor when the article exists. */
  lemma CommentListResponse(db: Db, articleId: int, cursor: Option<int>, limit: nat)
    requires exists a :: a in db.articles && a.id == articleId
    ensures var p := ListedComments(db.comments, articleId, CommentQuery(cursor, limit));
            GetCommentList(db, Ok(articleId), Ok(CommentQuery(cursor, limit)))
            == Ok(Response(200, CommentListBody(p.list, p.nextCursor)))
  {
  }

  /**
   * The cursor of a final page is the id of the page's own last comment, not
   * null: asking again with it lists that one comment again, with the same
   * cursor, so a client that stops only at a null cursor never stops.
   */
  lemma FinalPageCursorRepeats(db: Db, articleId: int, cursor: Option<int>, limit: nat)
    requires db.Valid()
    requires GetCommentList(db, Ok(articleId), Ok(CommentQuery(cursor, limit))).Ok?
    requires 0 < |GetCommentList(db, Ok(articleId), Ok(CommentQuery(cursor, limit))).value.body.comments| < limit
    ensures var body := GetCommentList(db, Ok(articleId), Ok(CommentQuery(cursor, limit))).value.body;
            var again := GetCommentList(db, Ok(articleId), Ok(CommentQuery(body.nextCursor, limit)));
            && body.nextCursor == Some(body.comments[|body.comments| - 1].id)
            && again.Ok?
            && again.value.body.comments == [body.comments[|body.comments| - 1]]
            && again.value.body.nextCursor == body.nextCursor
  {
    var article := First(db.articles, ArticleWithId(articleId));
    assert article.Some?;
    var p := ListedComments(db.comments, articleId, CommentQuery(cursor, limit));
    CommentListResponse(db, articleId, cursor, limit);
    FinalPageRepeats(db.comments, db.nextCommentId, articleId, cursor, limit);
    CommentListResponse(db, articleId, p.nextCursor, limit);
  }

  /**
   * The article's comments in list order, as an opaque value: the comment
   * list reads them only through this order, and their ids identify them.
   */
  lemma OrderedComments(comments: seq<Comment>, next: int, articleId: int, limit: nat) returns (ordered: seq<Comment>)
    requires KeysDistinct(comments, CommentIdKey) && KeysBelow(comments, CommentIdKey, next)
    ensures Distinct(ordered)
    ensures forall x :: x in ordered ==> x.id >= 1
    ensures forall x, y :: x in ordered && y in ordered && x.id == y.id ==> x == y
    ensures forall c :: ListedComments(comments, articleId, CommentQuery(c, limit))
                        == CursorPage(FetchFrom(ordered, c, limit + 1), limit)
  {
    ordered := ArticleComments(comments, articleId);
    ArticleCommentsIdentified(comments, next, articleId);
    forall c ensures ListedComments(comments, articleId, CommentQuery(c, limit))
                     == CursorPage(FetchFrom(ordered, c, limit + 1), limit) {
      ListedFromOrdered(comments, articleId, CommentQuery(c, limit));
    }
  }

  /** `FinalPageOnOrdered` for two pages given by their equations. */
  lemma FinalPageFromOrdered(p: CommentPage, again: CommentPage, ordered: seq<Comment>, cursor: Option<int>, limit: nat)
    requires Distinct(ordered)
    requires forall x :: x in ordered ==> x.id >= 1
    requires forall x, y :: x in ordered && y in ordered && x.id == y.id ==> x == y
    requires p == CursorPage(FetchFrom(ordered, cursor, limit + 1), limit)
    requires 0 < |p.list| < limit
    requires again == CursorPage(FetchFrom(ordered, p.nextCursor, limit + 1), limit)
    ensures p.nextCursor == Some(p.list[|p.list| - 1].id)
    ensures again == CommentPage([p.list[|p.list| - 1]], p.nextCursor)
  {
    FinalPageOnOrdered(ordered, cursor, limit);
  }

  /** `FinalPageCursorRepeats` on the comments table alone. */
  lemma FinalPageRepeats(comments: seq<Comment>, next: int, articleId: int, cursor: Option<int>, limit: nat)
    requires KeysDistinct(comments, CommentIdKey) && KeysBelow(comments, CommentIdKey, next)
    requires 0 < |ListedComments(comments, articleId, CommentQuery(cursor, limit)).list| < limit
    ensures var p := ListedComments(comments, articleId, CommentQuery(cursor, limit));
            && p.nextCursor == Some(p.list[|p.list| - 1].id)
            && ListedComments(comments, articleId, CommentQuery(p.nextCursor, limit))
               == CommentPage([p.list[|p.list| - 1]], p.nextCursor)
  {
    var ordered := OrderedComments(comments, next, articleId, limit);
    var p := ListedComments(comments, articleId, CommentQuery(cursor, limit));
    FinalPageFromOrdered(p, ListedComments(comments, articleId, CommentQuery(p.nextCursor, limit)), ordered, cursor, limit);
  }

  // ---- Handlers that write: each is a function of the tables (what it answers, what the tables become)
  // ---- and a method on the store that performs it.

  datatype CommentInput = CommentInput(content: string)

  /** The update input built from the defined fields of the body. */
  function UpdateOf(p: ArticlePatch): ArticleUpdate {
    ArticleUpdate(p.title, p.content, p.image)
  }

  function CreateArticleOutcome(t: Tables, callerId: CallerId, body: Result<ArticleInput, string>, now: int)
    : (o: Outcome)
    ensures callerId.None? ==> o == Outcome(Err(Unauthenticated), t)
    ensures callerId.Some? && body.Err? ==> o == Outcome(Err(StructError(body.error)), t)
    ensures o.result.Ok? <==> callerId.Some? && body.Ok?
    ensures o.result.Ok? ==>
              var a := Article(t.nextArticleId, body.value.title, body.value.content, body.value.image, callerId.value, now);
              && o.result.value == Response(201, ArticleBody(a))
              && o.after == t.(articles := t.articles + [a], nextArticleId := t.nextArticleId + 1)
  {
    if callerId.None? then Outcome(Err(Unauthenticated), t)
    else if body.Err? then Outcome(Err(StructError(body.error)), t)
    else
      var a := Article(t.nextArticleId, body.value.title, body.value.content, body.value.image, callerId.value, now);
      Outcome(Ok(Response(201, ArticleBody(a))), t.(articles := t.articles + [a], nextArticleId := t.nextArticleId + 1))
  }

  /** A created article has an id no article had, so it is the only row with that id. */
  lemma CreatedArticleIsNew(t: Tables, callerId: CallerId, body: Result<ArticleInput, string>, now: int)
    requires Consistent(t)
    ensures Consistent(CreateArticleOutcome(t, callerId, body, now).after)
    ensures var o := CreateArticleOutcome(t, callerId, body, now);
            o.result.Ok? ==> forall a :: a in t.articles ==> a.id != o.result.value.body.article.id
  {
    var o := CreateArticleOutcome(t, callerId, body, now);
    if o.result.Ok? {
      AppendFreshKey(t.articles, ArticleIdKey, t.nextArticleId, o.result.value.body.article);
    }
  }

  /**
   * The checks run in the order 401, 400 (id, then body), 404, 403; a throw
   * leaves every table as it was, and a success replaces the one article
   * with that id by the article with the given fields written.
   */
  function UpdateArticleOutcome(t: Tables, callerId: CallerId, idParam: Result<int, string>,
                                body: Result<ArticlePatch, string>): (o: Outcome)
    ensures callerId.None? ==> o == Outcome(Err(Unauthenticated), t)
    ensures callerId.Some? && idParam.Err? ==> o == Outcome(Err(StructError(idParam.error)), t)
    ensures callerId.Some? && idParam.Ok? && body.Err? ==> o == Outcome(Err(StructError(body.error)), t)
    ensures o.result.Err? ==> o.after == t
    ensures callerId.Some? && idParam.Ok? && body.Ok? && (forall a :: a in t.articles ==> a.id != idParam.value) ==>
              o.result == Err(Raised(NotFoundError("article", idParam.value)))
    ensures o.result == Err(Raised(ForbiddenError(ArticleOwnerOnly))) ==>
              exists a :: a in t.articles && a.id == idParam.value && a.userId != callerId.value
    ensures o.result.Ok? ==>
              exists a :: a in t.articles && a.id == idParam.value && a.userId == callerId.value
                && o.result.value == Response(200, ArticleBody(ApplyArticleUpdate(a, UpdateOf(body.value))))
                && o.after == t.(articles := ReplaceWhere(t.articles, ArticleWithId(a.id),
                                                         ApplyArticleUpdate(a, UpdateOf(body.value))))
  {
    if callerId.None? then Outcome(Err(Unauthenticated), t)
    else if idParam.Err? then Outcome(Err(StructError(idParam.error)), t)
    else if body.Err? then Outcome(Err(StructError(body.error)), t)
    else
      var existing := First(t.articles, ArticleWithId(idParam.value));
      if existing.None? then Outcome(Err(Raised(NotFoundError("article", idParam.value))), t)
      else if existing.value.userId != callerId.value then Outcome(Err(Raised(ForbiddenError(ArticleOwnerOnly))), t)
      else
        var a := ApplyArticleUpdate(existing.value, UpdateOf(body.value));
        Outcome(Ok(Response(200, ArticleBody(a))), t.(articles := ReplaceWhere(t.articles, ArticleWithId(idParam.value), a)))
  }

  /**
   * With distinct article ids, an update by a signed-in caller with valid
   * input succeeds exactly when the caller owns the article, and is refused
   * exactly when someone else does.
   */
  lemma UpdateArticleDecision(t: Tables, callerId: int, id: int, patch: ArticlePatch)
    requires KeysDistinct(t.articles, ArticleIdKey)
    ensures var o := UpdateArticleOutcome(t, Some(callerId), Ok(id), Ok(patch));
            && (o.result.Ok? <==> exists a :: a in t.articles && a.id == id && a.userId == callerId)
            && (o.result == Err(Raised(ForbiddenError(ArticleOwnerOnly)))
                <==> exists a :: a in t.articles && a.id == id && a.userId != callerId)
  {
    KeysIdentifyRows(t.articles, ArticleIdKey);
  }

  /**
   * A successful update leaves every other article as it was, and in the
   * updated one changes no column but the given title, content and image.
   */
  lemma UpdateArticleChangesOnlyGivenFields(t: Tables, callerId: CallerId, id: int, patch: ArticlePatch)
    requires KeysDistinct(t.articles, ArticleIdKey)
    requires UpdateArticleOutcome(t, callerId, Ok(id), Ok(patch)).result.Ok?
    ensures var after := UpdateArticleOutcome(t, callerId, Ok(id), Ok(patch)).after;
            && after.(articles := t.articles) == t
            && |after.articles| == |t.articles|
            && forall i :: 0 <= i < |t.articles| ==>
                 if t.articles[i].id != id then after.articles[i] == t.articles[i]
                 else
                   var b := after.articles[i];
                   && b.id == id && b.userId == callerId.value && b.createdAt == t.articles[i].createdAt
                   && b.title == Overwrite(t.articles[i].title, patch.title)
                   && b.content == Overwrite(t.articles[i].content, patch.content)
                   && b.image == Overwrite(t.articles[i].image, patch.image)
  {
    var o := UpdateArticleOutcome(t, callerId, Ok(id), Ok(patch));
    var a :| a in t.articles && a.id == id && a.userId == callerId.value
             && o.after == t.(articles := ReplaceWhere(t.articles, ArticleWithId(a.id), ApplyArticleUpdate(a, UpdateOf(patch))));
    ArticleUpdateWritesGivenFields(a, UpdateOf(patch));
    KeysIdentifyRows(t.articles, ArticleIdKey);
  }

  function DeleteArticleOutcome(t: Tables, callerId: CallerId, idParam: Result<int, string>): (o: Outcome)
    ensures callerId.None? ==> o == Outcome(Err(Unauthenticated), t)
    ensures callerId.Some? && idParam.Err? ==> o == Outcome(Err(StructError(idParam.error)), t)
    ensures o.result.Err? ==> o.after == t
    ensures callerId.Some? && idParam.Ok? && (forall a :: a in t.articles ==> a.id != idParam.value) ==>
              o.result == Err(Raised(NotFoundError("article", idParam.value)))
    ensures o.result == Err(Raised(ForbiddenError(ArticleOwnerOnly))) ==>
              exists a :: a in t.articles && a.id == idParam.value && a.userId != callerId.value
    ensures o.result.Ok? ==>
              && o.result.value == Response(204, NoBody)
              && (exists a :: a in t.articles && a.id == idParam.value && a.userId == callerId.value)
              && o.after == t.(articles := RemoveWhere(t.articles, ArticleWithId(idParam.value)))
  {
    if callerId.None? then Outcome(Err(Unauthenticated), t)
    else if idParam.Err? then Outcome(Err(StructError(idParam.error)), t)
    else
      var existing := First(t.articles, ArticleWithId(idParam.value));
      if existing.None? then Outcome(Err(Raised(NotFoundError("article", idParam.value))), t)
      else if existing.value.userId != callerId.value then Outcome(Err(Raised(ForbiddenError(ArticleOwnerOnly))), t)
      else Outcome(Ok(Response(204, NoBody)), t.(articles := RemoveWhere(t.articles, ArticleWithId(idParam.value))))
  }

  /**
   * With distinct article ids, a delete by a signed-in caller succeeds (204)
   * exactly when the caller owns the article, and is refused (403) exactly
   * when someone else does.
   */
  lemma DeleteArticleDecision(t: Tables, callerId: int, id: int)
    requires KeysDistinct(t.articles, ArticleIdKey)
    ensures var o := DeleteArticleOutcome(t, Some(callerId), Ok(id));
            && (o.result.Ok? <==> exists a :: a in t.articles && a.id == id && a.userId == callerId)
            && (o.result == Err(Raised(ForbiddenError(ArticleOwnerOnly)))
                <==> exists a :: a in t.articles && a.id == id && a.userId != callerId)
  {
    KeysIdentifyRows(t.articles, ArticleIdKey);
  }

  /** With distinct ids, a successful delete removes that one article and keeps every other row. */
  lemma DeleteArticleRemovesOne(t: Tables, callerId: CallerId, id: int)
    requires KeysDistinct(t.articles, ArticleIdKey)
    requires DeleteArticleOutcome(t, callerId, Ok(id)).result.Ok?
    ensures var after := DeleteArticleOutcome(t, callerId, Ok(id)).after;
            exists a :: a in t.articles && a.id == id
              && multiset(after.articles) == multiset(t.articles) - multiset{a}
              && after.(articles := t.articles) == t
  {
    var a :| a in t.articles && a.id == id && a.userId == callerId.value;
    KeysIdentifyRows(t.articles, ArticleIdKey);
    RemoveSingle(t.articles, ArticleWithId(id), a);
  }

  function CreateCommentOutcome(t: Tables, callerId: CallerId, articleParam: Result<int, string>,
                                body: Result<CommentInput, string>, now: int): (o: Outcome)
    ensures callerId.None? ==> o == Outcome(Err(Unauthenticated), t)
    ensures callerId.Some? && articleParam.Err? ==> o == Outcome(Err(StructError(articleParam.error)), t)
    ensures callerId.Some? && articleParam.Ok? && body.Err? ==> o == Outcome(Err(StructError(body.error)), t)
    ensures o.result.Err? ==> o.after == t
    ensures o.result.Ok? <==>
              callerId.Some? && articleParam.Ok? && body.Ok? && exists a :: a in t.articles && a.id == articleParam.value
    ensures o.result.Err? && callerId.Some? && articleParam.Ok? && body.Ok? ==>
              o.result == Err(Raised(NotFoundError("article", articleParam.value)))
    ensures o.result.Ok? ==>
              var c := Comment(t.nextCommentId, body.value.content, articleParam.value, callerId.value, now);
              && o.result.value == Response(201, CommentBody(c))
              && o.after == t.(comments := t.comments + [c], nextCommentId := t.nextCommentId + 1)
  {
    if callerId.None? then Outcome(Err(Unauthenticated), t)
    else if articleParam.Err? then Outcome(Err(StructError(articleParam.error)), t)
    else if body.Err? then Outcome(Err(StructError(body.error)), t)
    else
      var existing := First(t.articles, ArticleWithId(articleParam.value));
      if existing.None? then Outcome(Err(Raised(NotFoundError("article", articleParam.value))), t)
      else
        var c := Comment(t.nextCommentId, body.value.content, articleParam.value, callerId.value, now);
        Outcome(Ok(Response(201, CommentBody(c))), t.(comments := t.comments + [c], nextCommentId := t.nextCommentId + 1))
  }

  /** A new comment is listed on its article: it is one of the article's comments afterwards. */
  lemma CreatedCommentIsListed(t: Tables, callerId: CallerId, articleId: int, body: Result<CommentInput, string>, now: int)
    requires CreateCommentOutcome(t, callerId, Ok(articleId), body, now).result.Ok?
    ensures var o := CreateCommentOutcome(t, callerId, Ok(articleId), body, now);
            o.result.value.body.comment in ArticleComments(o.after.comments, articleId)
  {
    var o := CreateCommentOutcome(t, callerId, Ok(articleId), body, now);
    var c := o.result.value.body.comment;
    assert c in o.after.comments;
    SortKeepsRows(Filter(o.after.comments, CommentOnArticle(articleId)), CommentCreatedAtKey, true);
  }

  function CreateLikeOutcome(t: Tables, callerId: CallerId, articleParam: Result<int, string>): (o: Outcome)
    ensures callerId.None? ==> o == Outcome(Err(Unauthenticated), t)
    ensures callerId.Some? && articleParam.Err? ==> o == Outcome(Err(StructError(articleParam.error)), t)
    ensures o.result.Err? ==> o.after == t
    ensures callerId.Some? && articleParam.Ok? && (forall a :: a in t.articles ==> a.id != articleParam.value) ==>
              o.result == Err(Raised(NotFoundError("article", articleParam.value)))
    ensures callerId.Some? && articleParam.Ok? && (exists a :: a in t.articles && a.id == articleParam.value) ==>
              ((exists l :: l in t.likes && l.articleId == articleParam.value && l.userId == callerId.value)
               <==> o.result == Err(Raised(BadRequestError("Already liked"))))
    ensures o.result.Ok? <==>
              && callerId.Some? && articleParam.Ok? && (exists a :: a in t.articles && a.id == articleParam.value)
              && (forall l :: l in t.likes ==> !(l.articleId == articleParam.value && l.userId == callerId.value))
    ensures o.result.Ok? ==>
              && o.result.value == Response(201, NoBody)
              && o.after == t.(likes := t.likes + [Like(t.nextLikeId, articleParam.value, callerId.value)],
                               nextLikeId := t.nextLikeId + 1)
  {
    if callerId.None? then Outcome(Err(Unauthenticated), t)
    else if articleParam.Err? then Outcome(Err(StructError(articleParam.error)), t)
    else
      var articleId := articleParam.value;
      var existing := First(t.articles, ArticleWithId(articleId));
      if existing.None? then Outcome(Err(Raised(NotFoundError("article", articleId))), t)
      else
        var existingLike := First(t.likes, LikeBy(articleId, callerId.value));
        if existingLike.Some? then Outcome(Err(Raised(BadRequestError("Already liked"))), t)
        else
          Outcome(Ok(Response(201, NoBody)),
                  t.(likes := t.likes + [Like(t.nextLikeId, articleId, callerId.value)], nextLikeId := t.nextLikeId + 1))
  }

  function DeleteLikeOutcome(t: Tables, callerId: CallerId, articleParam: Result<int, string>): (o: Outcome)
    ensures callerId.None? ==> o == Outcome(Err(Unauthenticated), t)
    ensures callerId.Some? && articleParam.Err? ==> o == Outcome(Err(StructError(articleParam.error)), t)
    ensures o.result.Err? ==> o.after == t
    ensures callerId.Some? && articleParam.Ok? && (forall a :: a in t.articles ==> a.id != articleParam.value) ==>
              o.result == Err(Raised(NotFoundError("article", articleParam.value)))
    ensures callerId.Some? && articleParam.Ok? && (exists a :: a in t.articles && a.id == articleParam.value) ==>
              ((forall l :: l in t.likes ==> !(l.articleId == articleParam.value && l.userId == callerId.value))
               <==> o.result == Err(Raised(BadRequestError("Not liked"))))
    ensures o.result.Ok? <==>
              && callerId.Some? && articleParam.Ok? && (exists a :: a in t.articles && a.id == articleParam.value)
              && (exists l :: l in t.likes && l.articleId == articleParam.value && l.userId == callerId.value)
    ensures o.result.Ok? ==>
              && o.result.value == Response(204, NoBody)
              && exists l :: l in t.likes && l.articleId == articleParam.value && l.userId == callerId.value
                   && o.after == t.(likes := RemoveWhere(t.likes, LikeWithId(l.id)))
  {
    if callerId.None? then Outcome(Err(Unauthenticated), t)
    else if articleParam.Err? then Outcome(Err(StructError(articleParam.error)), t)
    else
      var articleId := articleParam.value;
      var existing := First(t.articles, ArticleWithId(articleId));
      if existing.None? then Outcome(Err(Raised(NotFoundError("article", articleId))), t)
      else
        var existingLike := First(t.likes, LikeBy(articleId, callerId.value));
        if existingLike.None? then Outcome(Err(Raised(BadRequestError("Not liked"))), t)
        else Outcome(Ok(Response(204, NoBody)), t.(likes := RemoveWhere(t.likes, LikeWithId(existingLike.value.id))))
  }

  /** Liking and unliking keep at most one like per (article, user). */
  lemma LikeHandlersKeepLikesUnique(t: Tables, callerId: CallerId, articleParam: Result<int, string>)
    requires LikesUnique(t.likes)
    ensures LikesUnique(CreateLikeOutcome(t, callerId, articleParam).after.likes)
    ensures LikesUnique(DeleteLikeOutcome(t, callerId, articleParam).after.likes)
  {
    var created := CreateLikeOutcome(t, callerId, articleParam);
    if created.result.Ok? {
      var l := Like(t.nextLikeId, articleParam.value, callerId.value);
      var r := t.likes + [l];
      forall i, j | 0 <= i < j < |r| ensures LikesDiffer()(r[i], r[j]) {
        if j == |t.likes| {
          assert r[i] in t.likes;
        } else {
          assert r[i] == t.likes[i] && r[j] == t.likes[j];
        }
      }
    }
    RemoveWherePairwise(t.likes, LikeWithId(DeleteLikeLikeId(t, callerId, articleParam)), LikesDiffer());
  }

  /** The id of the like `deleteLike` looks up (0 when there is none). */
  function DeleteLikeLikeId(t: Tables, callerId: CallerId, articleParam: Result<int, string>): int {
    if callerId.None? || articleParam.Err? then 0
    else
      var existingLike := First(t.likes, LikeBy(articleParam.value, callerId.value));
      if existingLike.None? then 0 else existingLike.value.id
  }

  /**
   * With distinct like ids and at most one like per (article, user), a
   * successful unlike removes exactly the caller's like on the article, after
   * which the caller has no like on it.
   */
  lemma UnlikeRemovesTheLike(t: Tables, callerId: int, articleId: int)
    requires KeysDistinct(t.likes, LikeIdKey)
    requires DeleteLikeOutcome(t, Some(callerId), Ok(articleId)).result.Ok?
    ensures var after := DeleteLikeOutcome(t, Some(callerId), Ok(articleId)).after;
            && (exists l :: l in t.likes && l.articleId == articleId && l.userId == callerId
                  && multiset(after.likes) == multiset(t.likes) - multiset{l})
            && (LikesUnique(t.likes) ==> forall l :: l in after.likes ==> !(l.articleId == articleId && l.userId == callerId))
  {
    var o := DeleteLikeOutcome(t, Some(callerId), Ok(articleId));
    var l :| l in t.likes && l.articleId == articleId && l.userId == callerId
             && o.after == t.(likes := RemoveWhere(t.likes, LikeWithId(l.id)));
    RemovedLike(t.likes, o.after.likes, l);
  }

  /** Removing a like by its id takes out that one like, and under uniqueness every like with its (article, user). */
  lemma RemovedLike(likes: seq<Like>, after: seq<Like>, l: Like)
    requires KeysDistinct(likes, LikeIdKey) && l in likes
    requires after == RemoveWhere(likes, LikeWithId(l.id))
    ensures multiset(after) == multiset(likes) - multiset{l}
    ensures LikesUnique(likes) ==> forall m :: m in after ==> !(m.articleId == l.articleId && m.userId == l.userId)
  {
    KeysIdentifyRows(likes, LikeIdKey);
    RemoveSingle(likes, LikeWithId(l.id), l);
    if LikesUnique(likes) {
      forall m | m in after ensures !(m.articleId == l.articleId && m.userId == l.userId) {
        LikesUniqueIdentify(likes, l, m);
      }
    }
  }

  /** Liking an article and then unliking it restores the likes table. */
  lemma LikeThenUnlike(t: Tables, callerId: int, articleId: int)
    requires KeysBelow(t.likes, LikeIdKey, t.nextLikeId)
    requires CreateLikeOutcome(t, Some(callerId), Ok(articleId)).result.Ok?
    ensures var liked := CreateLikeOutcome(t, Some(callerId), Ok(articleId)).after;
            var unliked := DeleteLikeOutcome(liked, Some(callerId), Ok(articleId));
            unliked.result.Ok? && unliked.after.likes == t.likes
  {
    var liked := CreateLikeOutcome(t, Some(callerId), Ok(articleId)).after;
    var l := Like(t.nextLikeId, articleId, callerId);
    assert liked.likes == t.likes + [l] && liked.articles == t.articles;
    assert forall m :: m in t.likes ==> !LikeBy(articleId, callerId)(m);
    FirstOfAppended(t.likes, l, LikeBy(articleId, callerId));
    assert forall m :: m in t.likes ==> !LikeWithId(l.id)(m);
    RemoveAppended(t.likes, l, LikeWithId(l.id));
  }

  // ---- The methods ----

  method CreateArticle(db: Db, callerId: CallerId, body: Result<ArticleInput, string>, now: int)
    returns (r: Result<Response, Thrown>)
    requires db.Valid()
    modifies db
    ensures db.Valid()
    ensures Outcome(r, db.State()) == CreateArticleOutcome(old(db.State()), callerId, body, now)
  {
    if callerId.None? {
      return Err(Unauthenticated);
    }
    if body.Err? {
      return Err(StructError(body.error));
    }
    var data := body.value;
    var article := db.InsertArticle(data.title, data.content, data.image, callerId.value, now);
    return Ok(Response(201, ArticleBody(article)));
  }

  method UpdateArticle(db: Db, callerId: CallerId, idParam: Result<int, string>, body: Result<ArticlePatch, string>)
    returns (r: Result<Response, Thrown>)
    requires db.Valid()
    modifies db
    ensures db.Valid()
    ensures Outcome(r, db.State()) == UpdateArticleOutcome(old(db.State()), callerId, idParam, body)
  {
    if callerId.None? {
      return Err(Unauthenticated);
    }
    if idParam.Err? {
      return Err(StructError(idParam.error));
    }
    if body.Err? {
      return Err(StructError(body.error));
    }
    var id, data := idParam.value, body.value;
    var updateData := ArticleUpdate(None, None, None);
    if data.title.Some? {
      updateData := updateData.(title := data.title);
    }
    if data.content.Some? {
      updateData := updateData.(content := data.content);
    }
    if data.image.Some? {
      updateData := updateData.(image := data.image);
    }
    assert updateData == UpdateOf(data);
    var existing := First(db.articles, ArticleWithId(id));
    if existing.None? {
      return Err(Raised(NotFoundError("article", id)));
    }
    if existing.value.userId != callerId.value {
      return Err(Raised(ForbiddenError(ArticleOwnerOnly)));
    }
    var updated := db.UpdateArticleRow(existing.value, updateData);
    return Ok(Response(200, ArticleBody(updated)));
  }

  method DeleteArticle(db: Db, callerId: CallerId, idParam: Result<int, string>) returns (r: Result<Response, Thrown>)
    requires db.Valid()
    modifies db
    ensures db.Valid()
    ensures Outcome(r, db.State()) == DeleteArticleOutcome(old(db.State()), callerId, idParam)
  {
    if callerId.None? {
      return Err(Unauthenticated);
    }
    if idParam.Err? {
      return Err(StructError(idParam.error));
    }
    var id := idParam.value;
    var existing := First(db.articles, ArticleWithId(id));
    if existing.None? {
      return Err(Raised(NotFoundError("article", id)));
    }
    if existing.value.userId != callerId.value {
      return Err(Raised(ForbiddenError(ArticleOwnerOnly)));
    }
    db.DeleteArticleRow(id);
    return Ok(Response(204, NoBody));
  }

  method CreateComment(db: Db, callerId: CallerId, articleParam: Result<int, string>,
                       body: Result<CommentInput, string>, now: int) returns (r: Result<Response, Thrown>)
    requires db.Valid()
    modifies db
    ensures db.Valid()
    ensures Outcome(r, db.State()) == CreateCommentOutcome(old(db.State()), callerId, articleParam, body, now)
  {
    if callerId.None? {
      return Err(Unauthenticated);
    }
    if articleParam.Err? {
      return Err(StructError(articleParam.error));
    }
    if body.Err? {
      return Err(StructError(body.error));
    }
    var articleId := articleParam.value;
    var existing := First(db.articles, ArticleWithId(articleId));
    if existing.None? {
      return Err(Raised(NotFoundError("article", articleId)));
    }
    var comment := db.InsertComment(body.value.content, articleId, callerId.value, now);
    return Ok(Response(201, CommentBody(comment)));
  }

  method CreateLike(db: Db, callerId: CallerId, articleParam: Result<int, string>) returns (r: Result<Response, Thrown>)
    requires db.Valid()
    modifies db
    ensures db.Valid()
    ensures Outcome(r, db.State()) == CreateLikeOutcome(old(db.State()), callerId, articleParam)
  {
    if callerId.None? {
      return Err(Unauthenticated);
    }
    if articleParam.Err? {
      return Err(StructError(articleParam.error));
    }
    var articleId := articleParam.value;
    var existing := First(db.articles, ArticleWithId(articleId));
    if existing.None? {
      return Err(Raised(NotFoundError("article", articleId)));
    }
    var existingLike := First(db.likes, LikeBy(articleId, callerId.value));
    if existingLike.Some? {
      return Err(Raised(BadRequestError("Already liked")));
    }
    var _ := db.InsertLike(articleId, callerId.value);
    return Ok(Response(201, NoBody));
  }

  method DeleteLike(db: Db, callerId: CallerId, articleParam: Result<int, string>) returns (r: Result<Response, Thrown>)
    requires db.Valid()
    modifies db
    ensures db.Valid()
    ensures Outcome(r, db.State()) == DeleteLikeOutcome(old(db.State()), callerId, articleParam)
  {
    if callerId.None? {
      return Err(Unauthenticated);
    }
    if articleParam.Err? {
      return Err(StructError(articleParam.error));
    }
    var articleId := articleParam.value;
    var existing := First(db.articles, ArticleWithId(articleId));
    if existing.None? {
      return Err(Raised(NotFoundError("article", articleId)));
    }
    var existingLike := First(db.likes, LikeBy(articleId, callerId.value));
    if existingLike.None? {
      return Err(Raised(BadRequestError("Not liked")));
    }
    db.DeleteLikeRow(existingLike.value.id);
    return Ok(Response(204, NoBody));
  }
}

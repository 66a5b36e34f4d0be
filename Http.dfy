/**
 * What a handler produces: a response (status and body), or a thrown value
 * that the global error handler turns into one.
 */
module Http {
  import opened Wrappers
  import opened Records
  import opened Errors
  import opened Database

  /** The JSON body of a response. */
  datatype Body =
    | NoBody
    | MessageBody(message: string)
    | ArticleBody(article: Article)
    | ArticleViewBody(view: ArticleView)
    | ArticleListBody(articles: seq<ArticleView>, totalCount: nat)
    | CommentBody(comment: Comment)
    | CommentListBody(comments: seq<Comment>, nextCursor: Option<int>)
    | UserBody(user: PublicUser)
    | ProductListBody(products: seq<ProductView>, totalCount: nat)

  datatype Response = Response(status: int, body: Body)

  /**
   * What a handler throws: a validation failure from a request schema, one of
   * the application's error classes, or a query-engine error carrying a code.
   */
  datatype Thrown =
    | StructError(message: string)
    | Raised(error: AppError)
    | DbError(code: string, message: string)

  /** The error a handler throws for a request without an authenticated user. */
  const Unauthenticated: Thrown := Raised(UnauthorizedError("Unauthorized"))

  /** The id of `req.user` when it is set to a user (neither undefined nor null). */
  type CallerId = Option<int>

  type Positive = n: int | n >= 1 witness 1

  /** A validated offset-pagination query: `page` from 1, `pageSize`, `orderBy`, optional `keyword`. */
  datatype OffsetQuery = OffsetQuery(page: Positive, pageSize: nat, orderBy: string, keyword: Option<string>)

  /** `(page - 1) * pageSize` */
  function Skip(q: OffsetQuery): nat {
    (q.page - 1) * q.pageSize
  }

  /** How many rows an offset page of `total` ordered rows holds. */
  function PageLength(total: nat, skip: nat, take: nat): nat {
    if skip >= total then 0 else if total - skip < take then total - skip else take
  }

  /** What a handler that may write leaves behind: its response or throw, and the tables afterwards. */
  datatype Outcome = Outcome(result: Result<Response, Thrown>, after: Tables)
}

# Request decisions of the articles/comments/users REST backend

This project models, in Dafny, the decision logic of an Express + Prisma REST
backend for articles, comments, likes, users, products and favourites:

- **Article handlers:** create, read, update and delete an article; the
  offset-paginated article list; comments and their cursor-paginated list;
  likes.
- **Comment handlers:** edit and delete a comment.
- **The signed-in user's handlers:** profile, profile change, password change,
  own products, favourited products.
- **The authentication middleware.**
- **Token issuing and checking.**
- **The four application error classes.**
- **The global error handler and the catch-all 404.**

The store is a class `Database.Db` whose tables are sequences of rows.

How the model is built:

- **Writing handlers.** Each is a method that takes the store `db: Db`. Its postcondition
  equates the response and the new tables to a function of the old tables:
  `CreateArticleOutcome`, `UpdateArticleOutcome`, and so on. The properties of
  the handler (check order, what is written, what is left unchanged) are
  proved about that function.
- **Reading handlers.** These are functions that read the store.
- **Request input.** A handler receives:
  - the authenticated caller's id, or none when `req.user` is unset or null;
  - each validated input as `Ok(value)` or `Err(message)`. `Err` stands for
    the validation library's `StructError`.

Two properties are proved that are worth knowing when reading the source:

1. **Check order.** Every handler that needs a user answers 401 before it
   validates its input. A missing row (404) is reported before a row owned by
   someone else (403). Every throw leaves all tables unchanged.
2. **`getCommentList` on its final page.** It returns a non-null `nextCursor`
   on a final, short page. That cursor is the id of the last comment shown.
   Requesting again with it returns that comment alone, with the same cursor
   (`ArticleController.FinalPageCursorRepeats`).

   A pagination cursor is commonly exclusive, with `nextCursor` null once the
   list is exhausted. This code instead passes the cursor to the ORM, which
   includes the cursor row, and takes the last fetched row as `nextCursor`.
   The model follows the code (lines 194-208 of
   `src/controllers/articleController.ts`). It takes the ORM's cursor to start
   the fetch at the row with that id; "## Left out" records where this can
   differ from the ORM.

## Model

| member | source | states |
|---|---|---|
| Errors.AppError.Name | src/libs/errors.ts:1-27 | each class sets `name` to its own class name, which ends in "Error" |
| Errors.BadRequestError | src/libs/errors.ts:1-6 | the error is a BadRequestError, keeps the given message verbatim and is named "BadRequestError" |
| Errors.UnauthorizedError | src/libs/errors.ts:8-13 | the error is an UnauthorizedError, keeps the given message verbatim and is named "UnauthorizedError" |
| Errors.ForbiddenError | src/libs/errors.ts:15-20 | the error is a ForbiddenError, keeps the given message verbatim and is named "ForbiddenError" |
| Errors.NotFoundError | src/libs/errors.ts:22-27 | the error is a NotFoundError named "NotFoundError"; its message is the model name, then " with id ", then at least one character, then " not found" |
| Errors.NamesDistinct | src/libs/errors.ts:1-27 | the four `name` values are distinct, so the name tells the class |
| Errors.IdTextRoundTrip | src/libs/errors.ts:24 | the decimal text of an id, as a template literal renders it, reads back to the id |
| Errors.NotFoundMessageNamesId | src/libs/errors.ts:22-27 | a NotFoundError message is the model name, " with id ", a decimal text that reads back as the id, and " not found"; two ids give the same message only when they are equal |
| Token.AssertSecret | src/libs/token.ts:9-14 | a secret is accepted exactly when it is set and non-empty; otherwise the error is "<name> is not configured" |
| Token.ParsePayload | src/libs/token.ts:16-21 | only an object payload whose `id` is a number is accepted, and only that id is kept; anything else gives "Invalid token payload" |
| Token.ParsePayloadKeepsOnlyId | src/libs/token.ts:16-21 | payloads that agree on `id` parse to the same result, whatever their other claims |
| Token.GenerateTokens | src/libs/token.ts:23-40 | succeeds exactly when both secrets are set; otherwise the access secret is reported before the refresh secret; on success each token signs `{ id }` with its own secret and expiry (1h, 7d) |
| Token.VerifyWith | src/libs/token.ts:42-60 | verification succeeds exactly when the secret is set, the token verifies under it and the payload parses; the result is the payload's id |
| Token.VerifyAccessToken | src/libs/token.ts:42-50 | an unset or empty access secret fails with "JWT_ACCESS_TOKEN_SECRET is not configured"; otherwise success exactly when the token verifies under the access secret and its payload parses, giving the payload's id |
| Token.VerifyRefreshToken | src/libs/token.ts:52-60 | the same with the refresh secret and "JWT_REFRESH_TOKEN_SECRET is not configured" |
| Token.VerifyUsesOwnSecret | src/libs/token.ts:42-60 | access verification depends only on the access secret, refresh verification only on the refresh secret |
| Token.GeneratedTokensVerify | src/libs/token.ts:23-60 | with both secrets set and a signing library that verifies its own tokens, both issued tokens verify back to the user they were issued for |
| Token.TokensNotInterchangeable | src/libs/token.ts:23-60 | with both secrets set and different, an access token is refused as a refresh token and the other way round |
| Authenticate.AccessToken | src/middlewares/authenticate.ts:12-13 | a token is read exactly when the access-token cookie is set to a non-empty value, and it is that value |
| Authenticate.Decide | src/middlewares/authenticate.ts:10-34 | a rejection is always 401 "Unauthorized" and happens only on a mandatory route; `req.user` is set only after the token verified and the lookup returned |
| Authenticate.DecideWithAccessSecret | src/middlewares/authenticate.ts:20-25 | with `verifyAccessToken` as the token check, an unset or empty access secret makes every request anonymous, and a request passes on with a user only when its token verified under the access secret to the looked-up id |
| Authenticate.MissingToken | src/middlewares/authenticate.ts:12-18 | without a non-empty token cookie, an optional route passes on anonymously and a mandatory one answers 401 |
| Authenticate.FailureLikeMissingToken | src/middlewares/authenticate.ts:20-31 | a verification or lookup that throws is decided exactly as if there were no token |
| Authenticate.VerifiedTokenPassesOn | src/middlewares/authenticate.ts:20-32 | a verified token passes the request on with the lookup result, on optional and mandatory routes alike |
| Authenticate.Request.Authenticate | src/middlewares/authenticate.ts:10-34 | the middleware's decision is `Decide`; `req.user` is assigned exactly when the request passes on with a lookup result |
| Authenticate.MandatoryRouteCaller | src/middlewares/authenticate.ts:10-34 | past the mandatory middleware, `req.user` was assigned; the handler sees a caller exactly when the lookup found a row |
| ErrorController.DefaultNotFoundHandler | src/controllers/errorController.ts:12-18 | any unmatched route gets 404 with message "Not found" |
| ErrorController.GlobalErrorHandler | src/controllers/errorController.ts:20-57 | the status is one of 400/401/403/404/500, the body is a message, and the error is logged exactly when the status is 500; the response of each arm, for any thrown value, is stated by `HandlerArms` |
| ErrorController.HandlerArms | src/controllers/errorController.ts:26-56 | for any thrown value: validation and bad-request errors are 400 with their message; the JSON parser's SyntaxError is 400 "Invalid JSON"; without a truthy `code`, not-found, unauthorized and forbidden errors keep their message under 404, 401 and 403; a non-object, another SyntaxError or an unknown class is a logged 500 "Internal server error" |
| ErrorController.CodeShadowsLaterClasses | src/controllers/errorController.ts:27-40 | a validation or bad-request error is 400 whatever `code` it carries; any other error with a truthy `code` that is not malformed JSON is a logged 500 "Failed to process data" |
| ErrorController.HandlesThrown | src/controllers/errorController.ts:20-57 | validation errors give 400 with their message; application errors give their class's status with their message; query-engine errors give a logged 500 |
| Records.WithoutPassword | src/controllers/usersController.ts:27 | putting the user's password back on the stripped user gives the row back, so only the password is dropped |
| Records.StripForgetsOnlyPassword | src/controllers/usersController.ts:27 | removing the password forgets the password and nothing else |
| Database.ArticleUpdateWritesGivenFields | src/controllers/articleController.ts:73-76 | an article update writes each given field, keeps the others and the id, owner and creation time, and is idempotent; the empty update changes nothing |
| Database.CommentUpdateWritesGivenFields | src/controllers/commentController.ts:20-23 | a comment update writes the content only when it is given |
| Database.UserUpdateWritesGivenFields | src/controllers/usersController.ts:40-43 | a user update writes exactly the given fields and keeps the id |
| Database.Db.InsertArticle | src/controllers/articleController.ts:27-32 | `article.create` appends a row with the next id and the given columns; only the article table and its counter change |
| Database.Db.UpdateArticleRow | src/controllers/articleController.ts:89-92 | `article.update` by id replaces the row with that id by the updated row |
| Database.Db.DeleteArticleRow | src/controllers/articleController.ts:114 | `article.delete` by id removes the rows with that id and nothing else |
| Database.Db.InsertComment | src/controllers/articleController.ts:172-178 | `comment.create` appends a row with the next id |
| Database.Db.UpdateCommentRow | src/controllers/commentController.ts:36-39 | `comment.update` by id replaces that row by the updated row |
| Database.Db.DeleteCommentRow | src/controllers/commentController.ts:62 | `comment.delete` by id removes that row and nothing else |
| Database.Db.InsertLike | src/controllers/articleController.ts:237 | `like.create` appends one like with the next id |
| Database.Db.DeleteLikeRow | src/controllers/articleController.ts:262 | `like.delete` by id removes that like and nothing else |
| Database.Db.UpdateUserRow | src/controllers/usersController.ts:45-48 | `user.update` by id gives the updated row and replaces it, or nothing (with no change) when no row has that id |
| ArticleController.ArticleViewOf | src/controllers/articleController.ts:52-59 | the view carries the article itself; `isLiked` is absent exactly for an anonymous caller, and otherwise says whether some like on the article is the caller's |
| ArticleController.ArticleViewCounts | src/controllers/articleController.ts:52-59 | `likeCount` is the number of likes on the article; `isLiked` is absent for an anonymous caller and otherwise says whether the caller liked it |
| ArticleController.GetArticle | src/controllers/articleController.ts:37-62 | an invalid id gives its validation error; a missing article gives NotFound("article", id); otherwise 200 with the view of the article with that id |
| ArticleController.ArticlePageFacts | src/controllers/articleController.ts:124-140 | a page of the ordered title matches has `PageLength` rows, all of them matches, in list order |
| ArticleController.GetArticleList | src/controllers/articleController.ts:118-155 | totalCount is the number of matching articles; the page holds at most pageSize of them, each a matching article with its like view, in `orderBy` order |
| ArticleController.GetArticleListPage | src/controllers/articleController.ts:129-140 | the listed articles are the ordered matches from offset (page-1)*pageSize on |
| ArticleController.ArticleListTotals | src/controllers/articleController.ts:124-129 | totalCount does not depend on the page or the caller; without a non-empty keyword it counts every article |
| ArticleController.CursorPage | src/controllers/articleController.ts:206-208 | the list is the first `limit` fetched rows; nextCursor is null exactly when nothing was fetched |
| ArticleController.CursorPageNext | src/controllers/articleController.ts:206-208 | with limit+1 rows fetched, the cursor is the one row held back; with fewer, it is the last row listed |
| ArticleController.CursorPageKeepsOrder | src/controllers/articleController.ts:206 | the listed rows were fetched, and keep the newest-first order of the fetch |
| ArticleController.FetchedCommentsBelong | src/controllers/articleController.ts:194-205 | the fetch returns at most `take` comments, all on the article, newest first |
| ArticleController.CommentPageFacts | src/controllers/articleController.ts:194-208 | the listed comments are at most `limit`, belong to the article and are newest first |
| ArticleController.GetCommentList | src/controllers/articleController.ts:183-214 | parameter, then query validation errors; NotFound("article", id) before any comment is read; otherwise 200 with the cursor page of a `limit + 1` fetch |
| ArticleController.FinalPageRepeats | src/controllers/articleController.ts:194-208 | on a short final page, nextCursor is the last listed comment and requesting it again lists that comment alone, with the same cursor |
| ArticleController.FinalPageCursorRepeats | src/controllers/articleController.ts:183-214 | the same, stated on the handler's responses |
| ArticleController.CreateArticleOutcome | src/controllers/articleController.ts:20-35 | 401 first, then the body's validation error; otherwise 201 with a new article owned by the caller, appended as the only change |
| ArticleController.CreatedArticleIsNew | src/controllers/articleController.ts:27-32 | creation keeps the tables consistent, and the new article's id is one no article had |
| ArticleController.UpdateArticleOutcome | src/controllers/articleController.ts:64-94 | order 401, id, body, 404, 403; a throw changes nothing; a success replaces the caller's article by the updated one and returns it with 200 |
| ArticleController.UpdateArticleDecision | src/controllers/articleController.ts:78-87 | with valid input, an update succeeds exactly when the caller owns the article, and is forbidden exactly when someone else does |
| ArticleController.UpdateArticleChangesOnlyGivenFields | src/controllers/articleController.ts:73-92 | a successful update changes no other row or table, and in the article only the given title, content and image |
| ArticleController.DeleteArticleOutcome | src/controllers/articleController.ts:96-116 | order 401, id, 404, 403; a throw changes nothing; a success removes the caller's article and answers 204 |
| ArticleController.DeleteArticleDecision | src/controllers/articleController.ts:103-115 | with valid input and distinct ids, a delete succeeds (204) exactly when the caller owns the article, and is forbidden (403) exactly when someone else does |
| ArticleController.DeleteArticleRemovesOne | src/controllers/articleController.ts:103-114 | a successful delete removes exactly the one article with that id and no other row |
| ArticleController.CreateCommentOutcome | src/controllers/articleController.ts:157-181 | order 401, id, body, 404; it succeeds exactly when the article exists, appending a comment by the caller on it and answering 201 |
| ArticleController.CreatedCommentIsListed | src/controllers/articleController.ts:172-178 | a created comment is among the article's comments afterwards |
| ArticleController.CreateLikeOutcome | src/controllers/articleController.ts:216-239 | order 401, id, 404, then "Already liked" exactly when the caller has a like on the article; it succeeds exactly when the article exists and the caller has no like on it, appending exactly one like by the caller and answering 201 |
| ArticleController.DeleteLikeOutcome | src/controllers/articleController.ts:241-264 | order 401, id, 404, then "Not liked" exactly when the caller has no like on the article; it succeeds exactly when the article exists and the caller has a like on it, removing that like by id and answering 204 |
| ArticleController.LikeHandlersKeepLikesUnique | src/controllers/articleController.ts:230-237 | both like handlers keep at most one like per (article, user) |
| ArticleController.UnlikeRemovesTheLike | src/controllers/articleController.ts:255-262 | a successful unlike removes exactly the caller's like, after which the caller has no like on the article |
| ArticleController.LikeThenUnlike | src/controllers/articleController.ts:216-264 | liking and then unliking an article succeeds and restores the likes table |
| ArticleController.CreateArticle | src/controllers/articleController.ts:20-35 | performs `CreateArticleOutcome` on the store |
| ArticleController.UpdateArticle | src/controllers/articleController.ts:64-94 | builds `updateData` field by field and performs `UpdateArticleOutcome` on the store |
| ArticleController.DeleteArticle | src/controllers/articleController.ts:96-116 | performs `DeleteArticleOutcome` on the store |
| ArticleController.CreateComment | src/controllers/articleController.ts:157-181 | performs `CreateCommentOutcome` on the store |
| ArticleController.CreateLike | src/controllers/articleController.ts:216-239 | performs `CreateLikeOutcome` on the store |
| ArticleController.DeleteLike | src/controllers/articleController.ts:241-264 | performs `DeleteLikeOutcome` on the store |
| CommentController.UpdateCommentOutcome | src/controllers/commentController.ts:11-42 | order 401, id, body, 404 "comment", 403; a throw changes nothing; a success replaces the caller's comment by the updated one and returns it |
| CommentController.UpdateCommentDecision | src/controllers/commentController.ts:25-34 | with valid input, an edit succeeds exactly when the caller wrote the comment, and is forbidden exactly when someone else did |
| CommentController.UpdateCommentChangesOnlyContent | src/controllers/commentController.ts:20-39 | a successful edit changes no other row or table; in the comment only the content changes, and only when given |
| CommentController.DeleteCommentOutcome | src/controllers/commentController.ts:44-64 | order 401, id, 404, 403; a throw changes nothing; a success removes the comment and answers 204 |
| CommentController.DeleteCommentDecision | src/controllers/commentController.ts:51-63 | with valid input and distinct ids, a delete succeeds (204) exactly when the caller wrote the comment, and is forbidden (403), changing nothing, exactly when someone else did |
| CommentController.DeleteCommentRemovesOne | src/controllers/commentController.ts:51-62 | a successful delete removes exactly that comment and no other row |
| CommentController.UpdateComment | src/controllers/commentController.ts:11-42 | fills `updateData` conditionally and performs `UpdateCommentOutcome` on the store |
| CommentController.DeleteComment | src/controllers/commentController.ts:44-64 | performs `DeleteCommentOutcome` on the store |
| UsersController.GetMe | src/controllers/usersController.ts:15-29 | 401 without a caller; NotFound("user", id) without the row; otherwise 200 with the row stripped of its password |
| UsersController.UpdateMeOutcome | src/controllers/usersController.ts:31-52 | 401, then the body's validation error; a missing row is the query engine's P2025 error; it succeeds exactly when the caller's row exists, answering 200 with the updated row without its password |
| UsersController.UpdateMeWritesOnlyProfile | src/controllers/usersController.ts:36-48 | a profile change rewrites only the caller's row, only its given email, nickname and image, never the password |
| UsersController.UpdateMe | src/controllers/usersController.ts:31-52 | builds `updateData` field by field and performs `UpdateMeOutcome` on the store |
| UsersController.UpdateMyPasswordOutcome | src/controllers/usersController.ts:54-82 | order 401, body, 404; with the row present the result is either success or 401 "Invalid credentials", which implies the password did not match; the stored hash changes only after the current password matched, and becomes the hash of the new one |
| UsersController.PasswordChangeNeedsCurrentPassword | src/controllers/usersController.ts:61-79 | with valid input and distinct ids, the change succeeds exactly when the current password matches, and fails with 401 "Invalid credentials" exactly when the row exists and it does not; if the library accepts a password against its own hash, the new password matches afterwards |
| UsersController.UpdateMyPassword | src/controllers/usersController.ts:54-82 | performs `UpdateMyPasswordOutcome` on the store |
| UsersController.ProductViewOf | src/controllers/usersController.ts:121-128 | the view carries the product itself, and `isFavorited` says whether some favourite on the product is the caller's |
| UsersController.ProductViewCounts | src/controllers/usersController.ts:121-128 | `favoriteCount` is the number of favourites on the product; `isFavorited` says whether one of them is the caller's |
| UsersController.ProductPageFacts | src/controllers/usersController.ts:108-119 | a page of the ordered matching products has `PageLength` rows, all matches, in id order |
| UsersController.GetMyProductList | src/controllers/usersController.ts:84-134 | 401 first; totalCount counts the caller's matching products; the page holds matching products of the caller with their favourite view, in `orderBy` order, at most pageSize |
| UsersController.GetMyFavoriteList | src/controllers/usersController.ts:136-192 | 401 first; totalCount counts the matching products the caller favourited; each listed product is one of them, with its favourite count and `isFavorited` true |
| UsersController.FavoriteListAgreesWithViews | src/controllers/usersController.ts:181-186 | the favourite list's constant `isFavorited: true` is what the general view computes for every listed product |
| UsersController.MyProductListPage | src/controllers/usersController.ts:102-119 | the product list is the ordered matches from offset (page-1)*pageSize on, and totalCount is their number |
| UsersController.MyFavoriteListPage | src/controllers/usersController.ts:154-179 | the favourite list is the ordered matches from offset (page-1)*pageSize on, and totalCount is their number |
| UsersController.MyProductTotalWithoutKeyword | src/controllers/usersController.ts:94-107 | without a non-empty keyword, totalCount is the number of products the caller owns |
| UsersController.MyFavoriteTotalWithoutKeyword | src/controllers/usersController.ts:146-163 | without a non-empty keyword, totalCount is the number of products the caller favourited |

## Left out

- **Query engine:** its internals are replaced by in-memory sequences (`Query`, `Database`).
  - `orderBy` is a stable insertion sort on the key, so rows with equal keys keep table order. The database's order for ties is not modelled.
  - A `cursor` is taken to start the fetch at the position of the row with that id within the filtered, ordered rows. A cursor naming no such row fetches nothing. This is an assumption: Prisma positions a cursor by the cursor row's own `orderBy` values, so with ties on `createdAt`, or with a cursor naming a comment of another article, the ORM can return a different page.
  - `contains` is exact, case-sensitive substring containment. The code passes no `mode`; whether the database matches case-insensitively depends on its collation, which is not modelled.
  - Cascading deletes and foreign-key checks are not modelled. Deleting an article leaves its comments and likes.
  - A like for a missing user, and a comment by one, are not rejected.
  - The row primitives take the found row, so the P2025 error that `update`/`delete` raise on a vanished row occurs only in `updateMe`.
- **Request validation:** the schemas are not part of this model.
  - A validated input arrives as `Ok(value)` or `Err(message)`.
  - `page` is taken to be at least 1 and the numeric fields to be integers.
  - `CommentQuery.limit` and `OffsetQuery.pageSize` are `nat`, so negative values are not modelled. In the source a negative `limit` gives `slice(0, -1)` and a negative `take`.
  - Ids are unbounded integers; no column width or JavaScript number precision is modelled.
- **Password hashing:** `compare` and `hash` are function parameters. The random salt from `genSalt(10)` is a `salt` parameter.
- **Token signing and verification:** `sign` and `verify` are function parameters, and what they promise is stated as predicates.
  - Token.SignedTokensVerify: expiry is not modelled. `verify` has no clock, so a token signed with `expiresIn` "1h" or "7d" verifies at any time, and `GeneratedTokensVerify` relies on that.
  - Numeric claims (`Token.Claim`) are integers. Non-integer numbers such as `1.5` or `NaN`, which pass the `typeof` check in `parsePayload`, are not modelled.
- **Creation time:** rows get the `now` parameter as `createdAt`.
- **Logging:** `console.error` is the `logged` flag only.
- **Responses:** serialisation is a (status, body) value.
- **Plumbing:** Express wiring, routes, `withAsync` and `src/libs/constants.ts` are not part of this model. Only the cookie name and the two secret names appear.
- **Concurrency:** requests run one at a time. The check-then-create race in `createLike`/`deleteLike` is not modelled.
- Database.Consistent: the "at most one like per (article, user)" invariant is not part of it. In the code it is kept by `createLike`'s check for an existing like (lines 230-235 of `src/controllers/articleController.ts`), so `ArticleController.LikeHandlersKeepLikesUnique` proves that the like handlers preserve it.

/**
 * The relational store as an object: one sequence of rows per table, plus the
 * next value of each autoincrement id the handlers allocate. `Valid` holds
 * `Consistent`: every table's ids are distinct, and the article, comment and
 * like ids are positive and below their counters. At most one like per
 * (article, user) is not part of it: `LikesUnique` states it separately, and
 * the like handlers are proved to keep it.
 */
module Database {
  import opened Records
  import opened Query
  import opened Wrappers

  function KeysDiffer<T>(key: T -> int): (T, T) -> bool {
    (a: T, b: T) => key(a) != key(b)
  }

  ghost predicate KeysDistinct<T>(rows: seq<T>, key: T -> int) {
    Pairwise(rows, KeysDiffer(key))
  }

  ghost predicate KeysBelow<T>(rows: seq<T>, key: T -> int, next: int) {
    forall x :: x in rows ==> 1 <= key(x) < next
  }

  function LikesDiffer(): (Like, Like) -> bool {
    (a: Like, b: Like) => !(a.articleId == b.articleId && a.userId == b.userId)
  }

  /** Appending a row whose key is above every key keeps keys distinct and below the next counter. */
  lemma AppendFreshKey<T>(rows: seq<T>, key: T -> int, next: int, x: T)
    requires KeysDistinct(rows, key) && KeysBelow(rows, key, next)
    requires key(x) == next && next >= 1
    ensures KeysDistinct(rows + [x], key) && KeysBelow(rows + [x], key, next + 1)
  {
    var r := rows + [x];
    forall i, j | 0 <= i < j < |r| ensures KeysDiffer(key)(r[i], r[j]) {
      if j == |rows| {
        assert r[i] in rows;
      } else {
        assert r[i] == rows[i] && r[j] == rows[j];
      }
    }
  }

  /** Replacing rows by one with the same key keeps every key where it was. */
  lemma ReplaceKeepsKeys<T>(rows: seq<T>, p: T -> bool, x: T, key: T -> int, next: int)
    requires forall y :: y in rows && p(y) ==> key(y) == key(x)
    requires KeysDistinct(rows, key)
    ensures KeysDistinct(ReplaceWhere(rows, p, x), key)
    ensures KeysBelow(rows, key, next) && (exists y :: y in rows && p(y)) ==>
              KeysBelow(ReplaceWhere(rows, p, x), key, next)
  {
    var r := ReplaceWhere(rows, p, x);
    assert forall i :: 0 <= i < |r| ==> key(r[i]) == key(rows[i]);
    forall i, j | 0 <= i < j < |r| ensures KeysDiffer(key)(r[i], r[j]) {
      assert KeysDiffer(key)(rows[i], rows[j]);
    }
    if KeysBelow(rows, key, next) && exists y :: y in rows && p(y) {
      forall z | z in r ensures 1 <= key(z) < next {
        var i :| 0 <= i < |r| && r[i] == z;
        assert rows[i] in rows;
      }
    }
  }

  /** Rows with distinct keys are distinct rows, and a key picks out at most one of them. */
  lemma KeysIdentifyRows<T>(rows: seq<T>, key: T -> int)
    requires KeysDistinct(rows, key)
    ensures Distinct(rows)
    ensures forall x, y :: x in rows && y in rows && key(x) == key(y) ==> x == y
  {
    forall x, y | x in rows && y in rows ensures key(x) == key(y) ==> x == y {
      var i :| 0 <= i < |rows| && rows[i] == x;
      var j :| 0 <= j < |rows| && rows[j] == y;
      if i < j {
        assert KeysDiffer(key)(rows[i], rows[j]);
      } else if j < i {
        assert KeysDiffer(key)(rows[j], rows[i]);
      }
    }
  }

  /** Every table and id counter at one moment, for stating what a handler changed. */
  datatype Tables = Tables(users: seq<User>, articles: seq<Article>, comments: seq<Comment>,
                           likes: seq<Like>, products: seq<Product>, favorites: seq<Favorite>,
                           nextArticleId: int, nextCommentId: int, nextLikeId: int)

  /** What the schema guarantees: every table's ids are distinct, autoincrement ids lie below their counter. */
  ghost predicate Consistent(t: Tables) {
    && KeysDistinct(t.users, UserIdKey)
    && KeysDistinct(t.articles, ArticleIdKey) && KeysBelow(t.articles, ArticleIdKey, t.nextArticleId)
    && KeysDistinct(t.comments, CommentIdKey) && KeysBelow(t.comments, CommentIdKey, t.nextCommentId)
    && KeysDistinct(t.likes, LikeIdKey) && KeysBelow(t.likes, LikeIdKey, t.nextLikeId)
    && KeysDistinct(t.products, ProductIdKey)
    && KeysDistinct(t.favorites, FavoriteIdKey)
    && t.nextArticleId >= 1 && t.nextCommentId >= 1 && t.nextLikeId >= 1
  }

  /** At most one like per (article, user): what the like handlers maintain. */
  ghost predicate LikesUnique(likes: seq<Like>) {
    Pairwise(likes, LikesDiffer())
  }

  /** Under `LikesUnique`, a like is identified by its (article, user) pair. */
  lemma LikesUniqueIdentify(likes: seq<Like>, l: Like, m: Like)
    requires LikesUnique(likes)
    requires l in likes && m in likes
    ensures l.articleId == m.articleId && l.userId == m.userId ==> l == m
  {
    var i :| 0 <= i < |likes| && likes[i] == l;
    var j :| 0 <= j < |likes| && likes[j] == m;
    if i < j {
      assert LikesDiffer()(likes[i], likes[j]);
    } else if j < i {
      assert LikesDiffer()(likes[j], likes[i]);
    }
  }

  // ---- Update inputs (the `data` of an `update`): an absent field is left as it is ----

  datatype ArticleUpdate = ArticleUpdate(title: Option<string>, content: Option<string>, image: Option<Option<string>>)

  datatype CommentUpdate = CommentUpdate(content: Option<string>)

  datatype UserUpdate = UserUpdate(email: Option<string>, nickname: Option<string>, image: Option<Option<string>>,
                                   password: Option<string>)

  function Overwrite<T>(old_: T, given: Option<T>): T {
    if given.Some? then given.value else old_
  }

  function ApplyArticleUpdate(a: Article, d: ArticleUpdate): Article {
    a.(title := Overwrite(a.title, d.title), content := Overwrite(a.content, d.content),
       image := Overwrite(a.image, d.image))
  }

  function ApplyCommentUpdate(c: Comment, d: CommentUpdate): Comment {
    c.(content := Overwrite(c.content, d.content))
  }

  function ApplyUserUpdate(u: User, d: UserUpdate): User {
    u.(email := Overwrite(u.email, d.email), nickname := Overwrite(u.nickname, d.nickname),
       image := Overwrite(u.image, d.image), password := Overwrite(u.password, d.password))
  }

  /**
   * An article update writes exactly the given fields: each given field takes
   * the given value, every other column keeps its value, and applying the same
   * update twice is applying it once.
   */
  lemma ArticleUpdateWritesGivenFields(a: Article, d: ArticleUpdate)
    ensures var b := ApplyArticleUpdate(a, d);
            && b.id == a.id && b.userId == a.userId && b.createdAt == a.createdAt
            && (if d.title.Some? then b.title == d.title.value else b.title == a.title)
            && (if d.content.Some? then b.content == d.content.value else b.content == a.content)
            && (if d.image.Some? then b.image == d.image.value else b.image == a.image)
            && ApplyArticleUpdate(b, d) == b
    ensures d == ArticleUpdate(None, None, None) ==> ApplyArticleUpdate(a, d) == a
  {
  }

  /** A comment update writes the content when it is given, and nothing else. */
  lemma CommentUpdateWritesGivenFields(c: Comment, d: CommentUpdate)
    ensures var b := ApplyCommentUpdate(c, d);
            && b.(content := c.content) == c
            && (if d.content.Some? then b.content == d.content.value else b == c)
  {
  }

  /** A user update writes exactly the given fields and keeps the id. */
  lemma UserUpdateWritesGivenFields(u: User, d: UserUpdate)
    ensures var b := ApplyUserUpdate(u, d);
            && b.id == u.id
            && (if d.email.Some? then b.email == d.email.value else b.email == u.email)
            && (if d.nickname.Some? then b.nickname == d.nickname.value else b.nickname == u.nickname)
            && (if d.image.Some? then b.image == d.image.value else b.image == u.image)
            && (if d.password.Some? then b.password == d.password.value else b.password == u.password)
  {
  }

  /** Deleting keeps distinct keys distinct and below their counter. */
  lemma RemoveKeepsKeys<T(!new)>(rows: seq<T>, p: T -> bool, key: T -> int, next: int)
    requires KeysDistinct(rows, key) && KeysBelow(rows, key, next)
    ensures KeysDistinct(RemoveWhere(rows, p), key) && KeysBelow(RemoveWhere(rows, p), key, next)
  {
    RemoveWherePairwise(rows, p, KeysDiffer(key));
  }

  /**
   * The store, with one method per query-engine write the handlers issue.
   * `update` and `delete` act on the row with the given id; the handlers only
   * issue them after finding that row.
   */
  class Db {
    var users: seq<User>
    var articles: seq<Article>
    var comments: seq<Comment>
    var likes: seq<Like>
    var products: seq<Product>
    var favorites: seq<Favorite>
    var nextArticleId: int
    var nextCommentId: int
    var nextLikeId: int

    ghost predicate Valid()
      reads this
    {
      Consistent(State())
    }

    ghost function State(): Tables
      reads this
    {
      Tables(users, articles, comments, likes, products, favorites, nextArticleId, nextCommentId, nextLikeId)
    }

    /** An empty store whose autoincrement ids start at 1. */
    constructor ()
      ensures Valid()
      ensures State() == Tables([], [], [], [], [], [], 1, 1, 1)
    {
      users, articles, comments, likes, products, favorites := [], [], [], [], [], [];
      nextArticleId, nextCommentId, nextLikeId := 1, 1, 1;
    }

    /** `article.create`: the next id, `createdAt` set to the current time. */
    method InsertArticle(title: string, content: string, image: Option<string>, userId: int, now: int)
      returns (a: Article)
      requires Valid()
      modifies this
      ensures Valid()
      ensures a == Article(old(nextArticleId), title, content, image, userId, now)
      ensures State() == old(State()).(articles := old(articles) + [a], nextArticleId := old(nextArticleId) + 1)
    {
      a := Article(nextArticleId, title, content, image, userId, now);
      AppendFreshKey(articles, ArticleIdKey, nextArticleId, a);
      articles, nextArticleId := articles + [a], nextArticleId + 1;
    }

    /** `article.update` of an existing row by id; returns the updated row. */
    method UpdateArticleRow(existing: Article, data: ArticleUpdate) returns (a: Article)
      requires Valid() && existing in articles
      modifies this
      ensures Valid()
      ensures a == ApplyArticleUpdate(existing, data)
      ensures State() == old(State()).(articles := ReplaceWhere(old(articles), ArticleWithId(existing.id), a))
    {
      a := ApplyArticleUpdate(existing, data);
      ReplaceKeepsKeys(articles, ArticleWithId(existing.id), a, ArticleIdKey, nextArticleId);
      articles := ReplaceWhere(articles, ArticleWithId(existing.id), a);
    }

    /** `article.delete` by id. */
    method DeleteArticleRow(id: int)
      requires Valid()
      modifies this
      ensures Valid()
      ensures State() == old(State()).(articles := RemoveWhere(old(articles), ArticleWithId(id)))
    {
      RemoveKeepsKeys(articles, ArticleWithId(id), ArticleIdKey, nextArticleId);
      articles := RemoveWhere(articles, ArticleWithId(id));
    }

    /** `comment.create`. */
    method InsertComment(content: string, articleId: int, userId: int, now: int) returns (c: Comment)
      requires Valid()
      modifies this
      ensures Valid()
      ensures c == Comment(old(nextCommentId), content, articleId, userId, now)
      ensures State() == old(State()).(comments := old(comments) + [c], nextCommentId := old(nextCommentId) + 1)
    {
      c := Comment(nextCommentId, content, articleId, userId, now);
      AppendFreshKey(comments, CommentIdKey, nextCommentId, c);
      comments, nextCommentId := comments + [c], nextCommentId + 1;
    }

    /** `comment.update` of an existing row by id. */
    method UpdateCommentRow(existing: Comment, data: CommentUpdate) returns (c: Comment)
      requires Valid() && existing in comments
      modifies this
      ensures Valid()
      ensures c == ApplyCommentUpdate(existing, data)
      ensures State() == old(State()).(comments := ReplaceWhere(old(comments), CommentWithId(existing.id), c))
    {
      c := ApplyCommentUpdate(existing, data);
      ReplaceKeepsKeys(comments, CommentWithId(existing.id), c, CommentIdKey, nextCommentId);
      comments := ReplaceWhere(comments, CommentWithId(existing.id), c);
    }

    /** `comment.delete` by id. */
    method DeleteCommentRow(id: int)
      requires Valid()
      modifies this
      ensures Valid()
      ensures State() == old(State()).(comments := RemoveWhere(old(comments), CommentWithId(id)))
    {
      RemoveKeepsKeys(comments, CommentWithId(id), CommentIdKey, nextCommentId);
      comments := RemoveWhere(comments, CommentWithId(id));
    }

    /** `like.create`. */
    method InsertLike(articleId: int, userId: int) returns (l: Like)
      requires Valid()
      modifies this
      ensures Valid()
      ensures l == Like(old(nextLikeId), articleId, userId)
      ensures State() == old(State()).(likes := old(likes) + [l], nextLikeId := old(nextLikeId) + 1)
    {
      l := Like(nextLikeId, articleId, userId);
      AppendFreshKey(likes, LikeIdKey, nextLikeId, l);
      likes, nextLikeId := likes + [l], nextLikeId + 1;
    }

    /** `like.delete` by id. */
    method DeleteLikeRow(id: int)
      requires Valid()
      modifies this
      ensures Valid()
      ensures State() == old(State()).(likes := RemoveWhere(old(likes), LikeWithId(id)))
    {
      RemoveKeepsKeys(likes, LikeWithId(id), LikeIdKey, nextLikeId);
      likes := RemoveWhere(likes, LikeWithId(id));
    }

    /**
     * `user.update` by id: the updated row, or nothing (the query engine's
     * "record to update not found") when no row has that id.
     */
    method UpdateUserRow(id: int, data: UserUpdate) returns (u: Option<User>)
      requires Valid()
      modifies this
      ensures Valid()
      ensures var found := First(old(users), UserWithId(id));
              u == if found.Some? then Some(ApplyUserUpdate(found.value, data)) else None
      ensures State() == if u.Some? then old(State()).(users := ReplaceWhere(old(users), UserWithId(id), u.value))
                         else old(State())
    {
      var found := First(users, UserWithId(id));
      if found.None? {
        u := None;
      } else {
        var updated := ApplyUserUpdate(found.value, data);
        ReplaceKeepsKeys(users, UserWithId(id), updated, UserIdKey, 1);
        users := ReplaceWhere(users, UserWithId(id), updated);
        u := Some(updated);
      }
    }
  }
}

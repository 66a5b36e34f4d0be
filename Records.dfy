/**
 * The rows of the tables the handlers read and write, and the shapes the
 * handlers send back. Only the columns the handlers look at are modelled.
 */
module Records {
  import opened Wrappers

  datatype User = User(id: int, email: string, nickname: string, image: Option<string>, password: string)

  datatype Article = Article(id: int, title: string, content: string, image: Option<string>,
                             userId: int, createdAt: int)

  datatype Comment = Comment(id: int, content: string, articleId: int, userId: int, createdAt: int)

  datatype Like = Like(id: int, articleId: int, userId: int)

  datatype Product = Product(id: int, name: string, description: string, userId: int)

  datatype Favorite = Favorite(id: int, productId: int, userId: int)

  /** A user row with the `password` column destructured away. */
  datatype PublicUser = PublicUser(id: int, email: string, nickname: string, image: Option<string>)

  /** An article with its `likes` replaced by `likeCount` and `isLiked` (absent for anonymous callers). */
  datatype ArticleView = ArticleView(article: Article, likeCount: nat, isLiked: Option<bool>)

  /** A product with its `favorites` replaced by `favoriteCount` and `isFavorited`. */
  datatype ProductView = ProductView(product: Product, favoriteCount: nat, isFavorited: bool)

  /** The user row with its password column taken off and every other column kept. */
  function WithoutPassword(u: User): (v: PublicUser)
    ensures WithPassword(v, u.password) == u
  {
    PublicUser(u.id, u.email, u.nickname, u.image)
  }

  /** Puts a password column back on a public user. */
  function WithPassword(v: PublicUser, password: string): User {
    User(v.id, v.email, v.nickname, v.image, password)
  }

  /**
   * Stripping forgets the password and nothing else: restoring the stripped
   * password gives the row back, and two rows strip to the same public user
   * exactly when they differ at most in their password.
   */
  lemma StripForgetsOnlyPassword(u1: User, u2: User)
    ensures WithPassword(WithoutPassword(u1), u1.password) == u1
    ensures WithoutPassword(u1) == WithoutPassword(u2) <==> u1.(password := u2.password) == u2
  {
  }

  // Row predicates used as `where` clauses.

  function ArticleWithId(id: int): Article -> bool {
    (a: Article) => a.id == id
  }

  function CommentWithId(id: int): Comment -> bool {
    (c: Comment) => c.id == id
  }

  function CommentOnArticle(articleId: int): Comment -> bool {
    (c: Comment) => c.articleId == articleId
  }

  function UserWithId(id: int): User -> bool {
    (u: User) => u.id == id
  }

  function LikeOnArticle(articleId: int): Like -> bool {
    (l: Like) => l.articleId == articleId
  }

  function LikeWithId(id: int): Like -> bool {
    (l: Like) => l.id == id
  }

  function LikeBy(articleId: int, userId: int): Like -> bool {
    (l: Like) => l.articleId == articleId && l.userId == userId
  }

  function FavoriteOnProduct(productId: int): Favorite -> bool {
    (f: Favorite) => f.productId == productId
  }

  // Columns used by `orderBy`.

  function ArticleIdKey(a: Article): int { a.id }
  function ArticleCreatedAtKey(a: Article): int { a.createdAt }
  function CommentCreatedAtKey(c: Comment): int { c.createdAt }
  function ProductIdKey(p: Product): int { p.id }

  // Primary keys.

  function UserIdKey(u: User): int { u.id }
  function CommentIdKey(c: Comment): int { c.id }
  function LikeIdKey(l: Like): int { l.id }
  function FavoriteIdKey(f: Favorite): int { f.id }
}

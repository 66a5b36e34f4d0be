/**
 * The signed-in user's own resources: the profile (never sent with its
 * password), profile and password changes, the user's products and the
 * products the user has favourited. Every handler answers 401 first when no
 * user is signed in.
 */
module UsersController {
  import opened Wrappers
  import opened Errors
  import opened Records
  import opened Http
  import opened Query
  import opened Database

  // ---- getMe ----

  function GetMe(db: Db, callerId: CallerId): (r: Result<Response, Thrown>)
    reads db
    ensures callerId.None? ==> r == Err(Unauthenticated)
    ensures callerId.Some? && (forall u :: u in db.users ==> u.id != callerId.value) ==>
              r == Err(Raised(NotFoundError("user", callerId.value)))
    ensures r.Ok? <==> callerId.Some? && exists u :: u in db.users && u.id == callerId.value
    ensures r.Ok? ==> exists u :: u in db.users && u.id == callerId.value
                                 && r.value == Response(200, UserBody(WithoutPassword(u)))
  {
    if callerId.None? then Err(Unauthenticated)
    else
      var user := First(db.users, UserWithId(callerId.value));
      if user.None? then Err(Raised(NotFoundError("user", callerId.value)))
      else Ok(Response(200, UserBody(WithoutPassword(user.value))))
  }

  // ---- updateMe ----

  /** The validated profile body: each of `email`, `nickname`, `image` may be left out; `image` may be null. */
  datatype ProfilePatch = ProfilePatch(email: Option<string>, nickname: Option<string>, image: Option<Option<string>>)

  /** The query engine's error for an `update` whose `where` matches no row. */
  const RecordNotFound: Thrown := DbError("P2025", "Record to update not found.")

  /** The update built from the body: the given profile fields, never the password. */
  function ProfileUpdate(p: ProfilePatch): UserUpdate {
    UserUpdate(p.email, p.nickname, p.image, None)
  }

  function UpdateMeOutcome(t: Tables, callerId: CallerId, body: Result<ProfilePatch, string>): (o: Outcome)
    ensures callerId.None? ==> o == Outcome(Err(Unauthenticated), t)
    ensures callerId.Some? && body.Err? ==> o == Outcome(Err(StructError(body.error)), t)
    ensures o.result.Err? ==> o.after == t
    ensures callerId.Some? && body.Ok? && (forall u :: u in t.users ==> u.id != callerId.value) ==>
              o.result == Err(RecordNotFound)
    ensures o.result.Ok? <==> callerId.Some? && body.Ok? && exists u :: u in t.users && u.id == callerId.value
    ensures o.result.Ok? ==>
              exists u :: u in t.users && u.id == callerId.value
                && o.result.value == Response(200, UserBody(WithoutPassword(ApplyUserUpdate(u, ProfileUpdate(body.value)))))
                && o.after == t.(users := ReplaceWhere(t.users, UserWithId(u.id), ApplyUserUpdate(u, ProfileUpdate(body.value))))
  {
    if callerId.None? then Outcome(Err(Unauthenticated), t)
    else if body.Err? then Outcome(Err(StructError(body.error)), t)
    else
      var user := First(t.users, UserWithId(callerId.value));
      if user.None? then Outcome(Err(RecordNotFound), t)
      else
        var u := ApplyUserUpdate(user.value, ProfileUpdate(body.value));
        Outcome(Ok(Response(200, UserBody(WithoutPassword(u)))), t.(users := ReplaceWhere(t.users, UserWithId(callerId.value), u)))
  }

  /**
   * A profile change rewrites only the caller's row, in it only the given
   * email, nickname and image, and never the password; every other table is
   * kept.
   */
  lemma UpdateMeWritesOnlyProfile(t: Tables, callerId: int, patch: ProfilePatch)
    requires KeysDistinct(t.users, UserIdKey)
    requires UpdateMeOutcome(t, Some(callerId), Ok(patch)).result.Ok?
    ensures var after := UpdateMeOutcome(t, Some(callerId), Ok(patch)).after;
            && after.(users := t.users) == t
            && |after.users| == |t.users|
            && forall i :: 0 <= i < |t.users| ==>
                 if t.users[i].id != callerId then after.users[i] == t.users[i]
                 else
                   var u, b := t.users[i], after.users[i];
                   && b.id == u.id && b.password == u.password
                   && b.email == Overwrite(u.email, patch.email)
                   && b.nickname == Overwrite(u.nickname, patch.nickname)
                   && b.image == Overwrite(u.image, patch.image)
  {
    var o := UpdateMeOutcome(t, Some(callerId), Ok(patch));
    var u :| u in t.users && u.id == callerId
             && o.after == t.(users := ReplaceWhere(t.users, UserWithId(u.id), ApplyUserUpdate(u, ProfileUpdate(patch))));
    KeysIdentifyRows(t.users, UserIdKey);
    forall i | 0 <= i < |t.users| && t.users[i].id == callerId ensures t.users[i] == u {
      assert t.users[i] in t.users;
    }
  }

  method UpdateMe(db: Db, callerId: CallerId, body: Result<ProfilePatch, string>) returns (r: Result<Response, Thrown>)
    requires db.Valid()
    modifies db
    ensures db.Valid()
    ensures Outcome(r, db.State()) == UpdateMeOutcome(old(db.State()), callerId, body)
  {
    if callerId.None? {
      return Err(Unauthenticated);
    }
    if body.Err? {
      return Err(StructError(body.error));
    }
    var data := body.value;
    var updateData := UserUpdate(None, None, None, None);
    if data.email.Some? {
      updateData := updateData.(email := data.email);
    }
    if data.nickname.Some? {
      updateData := updateData.(nickname := data.nickname);
    }
    if data.image.Some? {
      updateData := updateData.(image := data.image);
    }
    assert updateData == ProfileUpdate(data);
    var updatedUser := db.UpdateUserRow(callerId.value, updateData);
    if updatedUser.None? {
      return Err(RecordNotFound);
    }
    return Ok(Response(200, UserBody(WithoutPassword(updatedUser.value))));
  }

  // ---- updateMyPassword ----

  datatype PasswordChange = PasswordChange(password: string, newPassword: string)

  /** The hashing library: `compare(plain, hash)` and `hash(plain, salt)`. */
  type Compare = (string, string) -> bool

  type Hash = (string, string) -> string

  function PasswordUpdate(hashed: string): UserUpdate {
    UserUpdate(None, None, None, Some(hashed))
  }

  /**
   * 401 without a user, 400 for a malformed body, 404 without the user's row,
   * 401 "Invalid credentials" when the current password does not match, and
   * only then the stored hash becomes the hash of the new password.
   */
  function UpdateMyPasswordOutcome(t: Tables, callerId: CallerId, body: Result<PasswordChange, string>,
                                   compare: Compare, hash: Hash, salt: string): (o: Outcome)
    ensures callerId.None? ==> o == Outcome(Err(Unauthenticated), t)
    ensures callerId.Some? && body.Err? ==> o == Outcome(Err(StructError(body.error)), t)
    ensures o.result.Err? ==> o.after == t
    ensures callerId.Some? && body.Ok? && (forall u :: u in t.users ==> u.id != callerId.value) ==>
              o.result == Err(Raised(NotFoundError("user", callerId.value)))
    ensures callerId.Some? && body.Ok? && (exists u :: u in t.users && u.id == callerId.value) ==>
              o.result.Ok? || o.result == Err(Raised(UnauthorizedError("Invalid credentials")))
    ensures o.result == Err(Raised(UnauthorizedError("Invalid credentials"))) ==>
              exists u :: u in t.users && u.id == callerId.value && !compare(body.value.password, u.password)
    ensures o.result.Ok? ==>
              && o.result.value == Response(200, NoBody)
              && exists u :: u in t.users && u.id == callerId.value && compare(body.value.password, u.password)
                   && o.after == t.(users := ReplaceWhere(t.users, UserWithId(u.id),
                                                         u.(password := hash(body.value.newPassword, salt))))
  {
    if callerId.None? then Outcome(Err(Unauthenticated), t)
    else if body.Err? then Outcome(Err(StructError(body.error)), t)
    else
      var user := First(t.users, UserWithId(callerId.value));
      if user.None? then Outcome(Err(Raised(NotFoundError("user", callerId.value))), t)
      else if !compare(body.value.password, user.value.password) then
        Outcome(Err(Raised(UnauthorizedError("Invalid credentials"))), t)
      else
        var u := ApplyUserUpdate(user.value, PasswordUpdate(hash(body.value.newPassword, salt)));
        Outcome(Ok(Response(200, NoBody)), t.(users := ReplaceWhere(t.users, UserWithId(callerId.value), u)))
  }

  /**
   * With distinct user ids, a signed-in caller's change with a valid body
   * succeeds exactly when the current password matches the stored hash, and
   * is refused with 401 "Invalid credentials" exactly when the row exists and
   * the password does not match; and when the library accepts a password
   * against its own hash, the new password is the one that matches afterwards.
   */
  lemma PasswordChangeNeedsCurrentPassword(t: Tables, callerId: int, change: PasswordChange,
                                           compare: Compare, hash: Hash, salt: string)
    requires KeysDistinct(t.users, UserIdKey)
    ensures var o := UpdateMyPasswordOutcome(t, Some(callerId), Ok(change), compare, hash, salt);
            o.result.Ok? <==> exists u :: u in t.users && u.id == callerId && compare(change.password, u.password)
    ensures var o := UpdateMyPasswordOutcome(t, Some(callerId), Ok(change), compare, hash, salt);
            o.result == Err(Raised(UnauthorizedError("Invalid credentials")))
            <==> exists u :: u in t.users && u.id == callerId && !compare(change.password, u.password)
    ensures var o := UpdateMyPasswordOutcome(t, Some(callerId), Ok(change), compare, hash, salt);
            (forall p, s :: compare(p, hash(p, s))) && o.result.Ok? ==>
              forall u :: u in o.after.users && u.id == callerId ==> compare(change.newPassword, u.password)
  {
    KeysIdentifyRows(t.users, UserIdKey);
  }

  method UpdateMyPassword(db: Db, callerId: CallerId, body: Result<PasswordChange, string>,
                          compare: Compare, hash: Hash, salt: string) returns (r: Result<Response, Thrown>)
    requires db.Valid()
    modifies db
    ensures db.Valid()
    ensures Outcome(r, db.State()) == UpdateMyPasswordOutcome(old(db.State()), callerId, body, compare, hash, salt)
  {
    if callerId.None? {
      return Err(Unauthenticated);
    }
    if body.Err? {
      return Err(StructError(body.error));
    }
    var user := First(db.users, UserWithId(callerId.value));
    if user.None? {
      return Err(Raised(NotFoundError("user", callerId.value)));
    }
    var isPasswordValid := compare(body.value.password, user.value.password);
    if !isPasswordValid {
      return Err(Raised(UnauthorizedError("Invalid credentials")));
    }
    var hashedPassword := hash(body.value.newPassword, salt);
    var _ := db.UpdateUserRow(callerId.value, PasswordUpdate(hashedPassword));
    return Ok(Response(200, NoBody));
  }

  // ---- getMyProductList and getMyFavoriteList ----

  /** The keyword filter: none without a (non-empty) keyword, a name or description match otherwise. */
  predicate ProductMatches(keyword: Option<string>, p: Product) {
    !TruthyString(keyword) || Contains(p.name, keyword.value) || Contains(p.description, keyword.value)
  }

  /** The caller's own products that match. */
  function MyProductFilter(keyword: Option<string>, userId: int): Product -> bool {
    (p: Product) => ProductMatches(keyword, p) && p.userId == userId
  }

  predicate FavoritedBy(favorites: seq<Favorite>, userId: int, p: Product) {
    exists f :: f in favorites && f.productId == p.id && f.userId == userId
  }

  /** The matching products the caller has favourited. */
  function MyFavoriteFilter(keyword: Option<string>, favorites: seq<Favorite>, userId: int): Product -> bool {
    (p: Product) => ProductMatches(keyword, p) && FavoritedBy(favorites, userId, p)
  }

  /** `id` descending for "recent", ascending otherwise. */
  function OrderProducts(rows: seq<Product>, orderBy: string): seq<Product> {
    SortByKey(rows, ProductIdKey, orderBy == "recent")
  }

  /** A product with the number of its favourites and whether one of them is the caller's. */
  function ProductViewOf(p: Product, favorites: seq<Favorite>, userId: int): (v: ProductView)
    ensures v.product == p
    ensures v.isFavorited <==> exists f :: f in favorites && f.productId == p.id && f.userId == userId
  {
    var own := Filter(favorites, FavoriteOnProduct(p.id));
    ProductView(p, |own|, exists f :: f in own && f.userId == userId)
  }

  /** The view counts the product's favourites, and says whether the caller's is among them. */
  lemma ProductViewCounts(p: Product, favorites: seq<Favorite>, userId: int)
    ensures ProductViewOf(p, favorites, userId).favoriteCount == Count(favorites, FavoriteOnProduct(p.id))
    ensures ProductViewOf(p, favorites, userId).isFavorited <==> FavoritedBy(favorites, userId, p)
  {
    CountIsFilterLength(favorites, FavoriteOnProduct(p.id));
  }

  function ProductViews(rows: seq<Product>, favorites: seq<Favorite>, userId: int): (r: seq<ProductView>)
    ensures |r| == |rows| && forall i :: 0 <= i < |rows| ==> r[i] == ProductViewOf(rows[i], favorites, userId)
  {
    seq(|rows|, i requires 0 <= i < |rows| => ProductViewOf(rows[i], favorites, userId))
  }

  /** In the favourite list every product is flagged as favourited. */
  function FavoriteViews(rows: seq<Product>, favorites: seq<Favorite>): (r: seq<ProductView>)
    ensures |r| == |rows|
    ensures forall i :: 0 <= i < |rows| ==>
              r[i] == ProductView(rows[i], |Filter(favorites, FavoriteOnProduct(rows[i].id))|, true)
  {
    seq(|rows|, i requires 0 <= i < |rows| =>
          ProductView(rows[i], |Filter(favorites, FavoriteOnProduct(rows[i].id))|, true))
  }

  predicate InProductOrder(orderBy: string, a: Product, b: Product) {
    if orderBy == "recent" then a.id >= b.id else a.id <= b.id
  }

  /** An offset page of the ordered matching products: its length, its rows and their order. */
  lemma ProductPageFacts(products: seq<Product>, where: Product -> bool, orderBy: string, skip: nat, take: nat)
    ensures var matches := Filter(products, where);
            var page := OffsetPage(OrderProducts(matches, orderBy), skip, take);
            && |page| == PageLength(|matches|, skip, take)
            && (forall p :: p in page ==> p in products && where(p))
            && (forall i, j :: 0 <= i < j < |page| ==> InProductOrder(orderBy, page[i], page[j]))
  {
    var matches := Filter(products, where);
    var ordered := OrderProducts(matches, orderBy);
    OffsetPageRows(ordered, skip, take);
    SortKeepsRows(matches, ProductIdKey, orderBy == "recent");
    OffsetPageSorted(ordered, skip, take, ProductIdKey, orderBy == "recent");
  }

  function GetMyProductList(db: Db, callerId: CallerId, query: Result<OffsetQuery, string>)
    : (r: Result<Response, Thrown>)
    reads db
    ensures callerId.None? ==> r == Err(Unauthenticated)
    ensures callerId.Some? && query.Err? ==> r == Err(StructError(query.error))
    ensures r.Ok? <==> callerId.Some? && query.Ok?
    ensures r.Ok? ==>
              var q, body := query.value, r.value.body;
              && r.value.status == 200 && body.ProductListBody?
              && body.totalCount == |Filter(db.products, MyProductFilter(q.keyword, callerId.value))|
              && |body.products| == PageLength(body.totalCount, Skip(q), q.pageSize)
              && (forall i :: 0 <= i < |body.products| ==>
                    var v := body.products[i];
                    && v.product in db.products && v.product.userId == callerId.value
                    && ProductMatches(q.keyword, v.product)
                    && v == ProductViewOf(v.product, db.favorites, callerId.value))
              && (forall i, j :: 0 <= i < j < |body.products| ==>
                    InProductOrder(q.orderBy, body.products[i].product, body.products[j].product))
  {
    if callerId.None? then Err(Unauthenticated)
    else if query.Err? then Err(StructError(query.error))
    else
      var q := query.value;
      var where := MyProductFilter(q.keyword, callerId.value);
      var totalCount := Count(db.products, where);
      CountIsFilterLength(db.products, where);
      var page := OffsetPage(OrderProducts(Filter(db.products, where), q.orderBy), Skip(q), q.pageSize);
      ProductPageFacts(db.products, where, q.orderBy, Skip(q), q.pageSize);
      Ok(Response(200, ProductListBody(ProductViews(page, db.favorites, callerId.value), totalCount)))
  }

  function GetMyFavoriteList(db: Db, callerId: CallerId, query: Result<OffsetQuery, string>)
    : (r: Result<Response, Thrown>)
    reads db
    ensures callerId.None? ==> r == Err(Unauthenticated)
    ensures callerId.Some? && query.Err? ==> r == Err(StructError(query.error))
    ensures r.Ok? <==> callerId.Some? && query.Ok?
    ensures r.Ok? ==>
              var q, body := query.value, r.value.body;
              && r.value.status == 200 && body.ProductListBody?
              && body.totalCount == |Filter(db.products, MyFavoriteFilter(q.keyword, db.favorites, callerId.value))|
              && |body.products| == PageLength(body.totalCount, Skip(q), q.pageSize)
              && (forall i :: 0 <= i < |body.products| ==>
                    var v := body.products[i];
                    && v.product in db.products && FavoritedBy(db.favorites, callerId.value, v.product)
                    && ProductMatches(q.keyword, v.product) && v.isFavorited
                    && v.favoriteCount == |Filter(db.favorites, FavoriteOnProduct(v.product.id))|)
              && (forall i, j :: 0 <= i < j < |body.products| ==>
                    InProductOrder(q.orderBy, body.products[i].product, body.products[j].product))
  {
    if callerId.None? then Err(Unauthenticated)
    else if query.Err? then Err(StructError(query.error))
    else
      var q := query.value;
      var where := MyFavoriteFilter(q.keyword, db.favorites, callerId.value);
      var totalCount := Count(db.products, where);
      CountIsFilterLength(db.products, where);
      var page := OffsetPage(OrderProducts(Filter(db.products, where), q.orderBy), Skip(q), q.pageSize);
      ProductPageFacts(db.products, where, q.orderBy, Skip(q), q.pageSize);
      Ok(Response(200, ProductListBody(FavoriteViews(page, db.favorites), totalCount)))
  }

  /**
   * The favourite list's constant `isFavorited: true` is what the general
   * view would compute for each listed product, so both lists agree on every
   * product of the caller's that the caller has favourited.
   */
  lemma FavoriteListAgreesWithViews(db: Db, callerId: int, q: OffsetQuery)
    ensures var list := GetMyFavoriteList(db, Some(callerId), Ok(q)).value.body.products;
            forall i :: 0 <= i < |list| ==> list[i] == ProductViewOf(list[i].product, db.favorites, callerId)
  {
    var list := GetMyFavoriteList(db, Some(callerId), Ok(q)).value.body.products;
    forall i | 0 <= i < |list| ensures list[i] == ProductViewOf(list[i].product, db.favorites, callerId) {
      ProductViewCounts(list[i].product, db.favorites, callerId);
    }
  }

  /**
   * The product list is the slice of the ordered matches that starts at `(page - 1) * pageSize`.
   * What "ordered" means lives in `Query.SortByKey`'s contract: a permutation of
   * the matches, sorted by id (see also `ProductPageFacts`).
   */
  lemma MyProductListPage(db: Db, callerId: int, q: OffsetQuery)
    ensures var body := GetMyProductList(db, Some(callerId), Ok(q)).value.body;
            var ordered := OrderProducts(Filter(db.products, MyProductFilter(q.keyword, callerId)), q.orderBy);
            && body.totalCount == |ordered|
            && forall i :: 0 <= i < |body.products| ==> body.products[i].product == ordered[Skip(q) + i]
  {
    CountIsFilterLength(db.products, MyProductFilter(q.keyword, callerId));
  }

  /**
   * The favourite list is the slice of the ordered matches that starts at `(page - 1) * pageSize`.
   * What "ordered" means lives in `Query.SortByKey`'s contract: a permutation of
   * the matches, sorted by id (see also `ProductPageFacts`).
   */
  lemma MyFavoriteListPage(db: Db, callerId: int, q: OffsetQuery)
    ensures var body := GetMyFavoriteList(db, Some(callerId), Ok(q)).value.body;
            var ordered := OrderProducts(Filter(db.products, MyFavoriteFilter(q.keyword, db.favorites, callerId)), q.orderBy);
            && body.totalCount == |ordered|
            && forall i :: 0 <= i < |body.products| ==> body.products[i].product == ordered[Skip(q) + i]
  {
    CountIsFilterLength(db.products, MyFavoriteFilter(q.keyword, db.favorites, callerId));
  }

  function OwnedBy(userId: int): Product -> bool {
    (p: Product) => p.userId == userId
  }

  function FavoritedByUser(favorites: seq<Favorite>, userId: int): Product -> bool {
    (p: Product) => FavoritedBy(favorites, userId, p)
  }

  /** Without a (non-empty) keyword, the product list's total is every product the caller owns. */
  lemma MyProductTotalWithoutKeyword(db: Db, callerId: int, q: OffsetQuery)
    requires !TruthyString(q.keyword)
    ensures GetMyProductList(db, Some(callerId), Ok(q)).value.body.totalCount == Count(db.products, OwnedBy(callerId))
  {
    FilterSame(db.products, MyProductFilter(q.keyword, callerId), OwnedBy(callerId));
    CountIsFilterLength(db.products, OwnedBy(callerId));
  }

  /** Without a (non-empty) keyword, the favourite list's total is every product the caller has favourited. */
  lemma MyFavoriteTotalWithoutKeyword(db: Db, callerId: int, q: OffsetQuery)
    requires !TruthyString(q.keyword)
    ensures GetMyFavoriteList(db, Some(callerId), Ok(q)).value.body.totalCount
            == Count(db.products, FavoritedByUser(db.favorites, callerId))
  {
    FilterSame(db.products, MyFavoriteFilter(q.keyword, db.favorites, callerId), FavoritedByUser(db.favorites, callerId));
    CountIsFilterLength(db.products, FavoritedByUser(db.favorites, callerId));
  }
}

/**
 The recipe list filters: by author, by tag slug, and the two caller-relative
 boolean filters. The boolean filters are joins against the favorite and
 shopping-cart tables without `DISTINCT`, so a recipe appears once per
 matching row; the tag filter asks the database for `DISTINCT` rows.
 */
module Filters {
  import opened Seqs
  import opened Users
  import opened Recipes
  import opened Serializers

  /** A list response, or the 400 of a parameter that names no stored object. */
  datatype Listing = Listed(recipes: seq<Recipe>) | InvalidParameter

  /** The query parameters of the recipe list; an absent boolean reads as false. */
  datatype RecipeQuery = RecipeQuery(tags: seq<string>, author: Option<Id>, isFavorited: bool, isInShoppingCart: bool)

  /** How many favorite rows join `x` for `user`. */
  function FavoriteRows(favorites: seq<Favorite>, user: Id, x: Recipe): nat
  {
    multiset(favorites)[Favorite(user, x.id)]
  }

  /** How many cart rows join `x` for `user`. */
  function CartRows(carts: seq<CartEntry>, user: Id, x: Recipe): nat
  {
    multiset(carts)[CartEntry(user, x.id)]
  }

  /**
   `filter_is_favorited`: for an authenticated caller asking for it, the join
   lists each recipe once per favorite row of the caller that names it,
   in listing order.
   */
  function FilterIsFavorited(recipes: seq<Recipe>, favorites: seq<Favorite>, caller: Caller, value: bool): (r: seq<Recipe>)
    ensures !value || caller.Anonymous? ==> r == recipes
    ensures forall x :: x in r <==> x in recipes && (!value || caller.Anonymous? || IsFavorited(favorites, caller, x.id))
    ensures value && caller.Authenticated? ==> forall x {:trigger multiset(r)[x]} ::
      multiset(r)[x] == multiset(recipes)[x] * multiset(favorites)[Favorite(caller.id, x.id)]
    ensures DescendingBy(recipes, Pub) ==> DescendingBy(r, Pub)
  {
    if value && caller.Authenticated? then
      var weight := (x: Recipe) => FavoriteRows(favorites, caller.id, x);
      forall x ensures multiset(Weighted(recipes, weight))[x] == multiset(recipes)[x] * weight(x) {
        WeightedCount(recipes, weight, x);
      }
      if DescendingBy(recipes, Pub) then WeightedDescending(recipes, weight, Pub); Weighted(recipes, weight)
      else Weighted(recipes, weight)
    else recipes
  }

  /**
   `filter_is_in_shopping_cart`: for an authenticated caller asking for it,
   the join lists each recipe once per cart row of the caller that names it
   (the cart may hold a recipe several times), in listing order.
   */
  function FilterIsInShoppingCart(recipes: seq<Recipe>, carts: seq<CartEntry>, caller: Caller, value: bool): (r: seq<Recipe>)
    ensures !value || caller.Anonymous? ==> r == recipes
    ensures forall x :: x in r <==> x in recipes && (!value || caller.Anonymous? || IsInShoppingCart(carts, caller, x.id))
    ensures value && caller.Authenticated? ==> forall x {:trigger multiset(r)[x]} ::
      multiset(r)[x] == multiset(recipes)[x] * multiset(carts)[CartEntry(caller.id, x.id)]
    ensures DescendingBy(recipes, Pub) ==> DescendingBy(r, Pub)
  {
    if value && caller.Authenticated? then
      var weight := (x: Recipe) => CartRows(carts, caller.id, x);
      forall x ensures multiset(Weighted(recipes, weight))[x] == multiset(recipes)[x] * weight(x) {
        WeightedCount(recipes, weight, x);
      }
      if DescendingBy(recipes, Pub) then WeightedDescending(recipes, weight, Pub); Weighted(recipes, weight)
      else Weighted(recipes, weight)
    else recipes
  }

  /**
   With at most one favorite row per (user, recipe) pair — which the favorite
   endpoint keeps — the favorited filter only deletes recipes from the
   listing and keeps their order.
   */
  lemma FavoritedFilterIsSubsequence(recipes: seq<Recipe>, favorites: seq<Favorite>, caller: Caller, value: bool)
    requires NoDup(favorites)
    ensures IsSubsequence(FilterIsFavorited(recipes, favorites, caller, value), recipes)
  {
    if value && caller.Authenticated? {
      forall x | x in recipes ensures FavoriteRows(favorites, caller.id, x) <= 1 {
        NoDupCount(favorites, Favorite(caller.id, x.id));
      }
      var keep := (x: Recipe) => FavoriteRows(favorites, caller.id, x) > 0;
      WeightedAtMostOne(recipes, (x: Recipe) => FavoriteRows(favorites, caller.id, x), keep);
      FilterIsSubsequence(recipes, keep);
    } else {
      FilterIsSubsequence(recipes, (x: Recipe) => true);
      FilterAll(recipes, (x: Recipe) => true);
    }
  }

  /** The same holds of the cart filter while the caller's cart has no repeated recipe. */
  lemma CartFilterIsSubsequence(recipes: seq<Recipe>, carts: seq<CartEntry>, caller: Caller, value: bool)
    requires NoDup(carts)
    ensures IsSubsequence(FilterIsInShoppingCart(recipes, carts, caller, value), recipes)
  {
    if value && caller.Authenticated? {
      forall x | x in recipes ensures CartRows(carts, caller.id, x) <= 1 {
        NoDupCount(carts, CartEntry(caller.id, x.id));
      }
      var keep := (x: Recipe) => CartRows(carts, caller.id, x) > 0;
      WeightedAtMostOne(recipes, (x: Recipe) => CartRows(carts, caller.id, x), keep);
      FilterIsSubsequence(recipes, keep);
    } else {
      FilterIsSubsequence(recipes, (x: Recipe) => true);
      FilterAll(recipes, (x: Recipe) => true);
    }
  }

  /**
   The cart endpoint adds a row on every POST, so the same recipe can be in a
   cart twice; the cart filter then lists that recipe twice.
   */
  lemma CartFilterRepeatsRecipe(x: Recipe, user: Id)
    ensures FilterIsInShoppingCart([x], [CartEntry(user, x.id), CartEntry(user, x.id)], Authenticated(user), true) == [x, x]
  {
    var carts := [CartEntry(user, x.id), CartEntry(user, x.id)];
    var weight := (y: Recipe) => CartRows(carts, user, y);
    assert multiset(carts)[CartEntry(user, x.id)] == 2;
    assert weight(x) == 2;
    assert [x][1..] == [];
    assert Weighted([x], weight) == Repeat(x, 2) + Weighted([], weight);
    assert Repeat(x, 2) == [x] + ([x] + Repeat(x, 0));
  }

  /** The recipe carries at least one tag whose slug is among `slugs`. */
  predicate HasTagSlug(x: Recipe, tags: seq<Tag>, slugs: seq<string>)
  {
    exists t :: t in tags && t.id in x.tags && t.slug in slugs
  }

  /** Every requested slug names a stored tag (otherwise the filter form is invalid). */
  predicate KnownSlugs(tags: seq<Tag>, slugs: seq<string>)
  {
    forall s :: s in slugs ==> exists t :: t in tags && t.slug == s
  }

  /**
   The `tags` filter: no slugs, no filtering; an unknown slug is a 400;
   otherwise the recipes carrying at least one of the slugs (a union, not an
   intersection).
   */
  function FilterTags(recipes: seq<Recipe>, tags: seq<Tag>, slugs: seq<string>): (r: Listing)
    ensures r.InvalidParameter? <==> |slugs| > 0 && !KnownSlugs(tags, slugs)
    ensures |slugs| == 0 ==> r == Listed(recipes)
    ensures r.Listed? ==> forall x :: x in r.recipes <==> x in recipes && (|slugs| == 0 || HasTagSlug(x, tags, slugs))
    ensures r.Listed? ==> forall x {:trigger multiset(r.recipes)[x]} ::
      multiset(r.recipes)[x] == if |slugs| == 0 || HasTagSlug(x, tags, slugs) then multiset(recipes)[x] else 0
    ensures r.Listed? && DescendingBy(recipes, Pub) ==> DescendingBy(r.recipes, Pub)
  {
    if |slugs| == 0 then Listed(recipes)
    else if !KnownSlugs(tags, slugs) then InvalidParameter
    else
      var keep := (x: Recipe) => HasTagSlug(x, tags, slugs);
      forall x ensures multiset(Filter(recipes, keep))[x] == if keep(x) then multiset(recipes)[x] else 0 {
        FilterCount(recipes, keep, x);
      }
      if DescendingBy(recipes, Pub) then FilterDescending(recipes, keep, Pub); Listed(Filter(recipes, keep))
      else Listed(Filter(recipes, keep))
  }

  /** The `author` filter: an id that names no user is a 400; otherwise exactly that author's recipes. */
  function FilterAuthor(recipes: seq<Recipe>, users: seq<User>, author: Option<Id>): (r: Listing)
    ensures r.InvalidParameter? <==> author.Some? && author.value !in UserIds(users)
    ensures author.None? ==> r == Listed(recipes)
    ensures r.Listed? ==> forall x :: x in r.recipes <==> x in recipes && (author.None? || x.author == author.value)
    ensures r.Listed? ==> forall x {:trigger multiset(r.recipes)[x]} ::
      multiset(r.recipes)[x] == if author.None? || x.author == author.value then multiset(recipes)[x] else 0
    ensures r.Listed? && DescendingBy(recipes, Pub) ==> DescendingBy(r.recipes, Pub)
  {
    match author
    case None => Listed(recipes)
    case Some(a) =>
      if a !in UserIds(users) then InvalidParameter
      else
        var keep := (x: Recipe) => x.author == a;
        forall x ensures multiset(Filter(recipes, keep))[x] == if keep(x) then multiset(recipes)[x] else 0 {
          FilterCount(recipes, keep, x);
        }
        if DescendingBy(recipes, Pub) then FilterDescending(recipes, keep, Pub); Listed(Filter(recipes, keep))
        else Listed(Filter(recipes, keep))
  }

  /** A recipe passes every requested filter. */
  predicate Matches(x: Recipe, q: RecipeQuery, tags: seq<Tag>, favorites: seq<Favorite>, carts: seq<CartEntry>, caller: Caller)
  {
    && (|q.tags| == 0 || HasTagSlug(x, tags, q.tags))
    && (q.author.None? || x.author == q.author.value)
    && (!q.isFavorited || caller.Anonymous? || IsFavorited(favorites, caller, x.id))
    && (!q.isInShoppingCart || caller.Anonymous? || IsInShoppingCart(carts, caller, x.id))
  }

  /**
   How many rows the two boolean joins give a recipe: one per favorite row
   of the caller when `is_favorited` applies, times one per cart row of the
   caller when `is_in_shopping_cart` applies.
   */
  function JoinRows(favorites: seq<Favorite>, carts: seq<CartEntry>, caller: Caller, q: RecipeQuery, x: Recipe): nat
  {
    (if q.isFavorited && caller.Authenticated? then FavoriteRows(favorites, caller.id, x) else 1)
    * (if q.isInShoppingCart && caller.Authenticated? then CartRows(carts, caller.id, x) else 1)
  }

  /**
   The whole filter set, in declaration order (tags, author, is_favorited,
   is_in_shopping_cart); `DISTINCT` is applied to the query when tags were
   requested. It answers 400 exactly when a tag slug or the author is
   unknown, and otherwise lists exactly the matching recipes, keeping the
   listing's newest-first order: without tags each matching recipe once per
   row of the joins, with tags each once.
   */
  function FilterRecipes(recipes: seq<Recipe>, users: seq<User>, tags: seq<Tag>, favorites: seq<Favorite>,
                         carts: seq<CartEntry>, caller: Caller, q: RecipeQuery): (r: Listing)
    ensures r.InvalidParameter? <==>
      (|q.tags| > 0 && !KnownSlugs(tags, q.tags)) || (q.author.Some? && q.author.value !in UserIds(users))
    ensures r.Listed? ==> forall x :: x in r.recipes <==> x in recipes && Matches(x, q, tags, favorites, carts, caller)
    ensures r.Listed? && DescendingBy(recipes, Pub) ==> DescendingBy(r.recipes, Pub)
    ensures r.Listed? && |q.tags| > 0 ==> NoDup(r.recipes)
    ensures r.Listed? && |q.tags| == 0 ==> forall x {:trigger multiset(r.recipes)[x]} ::
      multiset(r.recipes)[x] ==
        if Matches(x, q, tags, favorites, carts, caller) then multiset(recipes)[x] * JoinRows(favorites, carts, caller, q, x) else 0
  {
    match FilterTags(recipes, tags, q.tags)
    case InvalidParameter => InvalidParameter
    case Listed(byTag) =>
      match FilterAuthor(byTag, users, q.author)
      case InvalidParameter => InvalidParameter
      case Listed(byAuthor) =>
        var favored := FilterIsFavorited(byAuthor, favorites, caller, q.isFavorited);
        var carted := FilterIsInShoppingCart(favored, carts, caller, q.isInShoppingCart);
        if |q.tags| > 0 then
          if DescendingBy(carted, Pub) then DistinctDescending(carted, Pub); Listed(Distinct(carted))
          else Listed(Distinct(carted))
        else
          forall x ensures multiset(carted)[x] ==
            if Matches(x, q, tags, favorites, carts, caller) then multiset(recipes)[x] * JoinRows(favorites, carts, caller, q, x) else 0
          {
            JoinCount(recipes, byAuthor, favored, carted, favorites, carts, caller, q, tags, x);
          }
          Listed(carted)
  }

  /** The arithmetic of the untagged case: a count through the author filter and the two joins. */
  lemma JoinCount(recipes: seq<Recipe>, byAuthor: seq<Recipe>, favored: seq<Recipe>, carted: seq<Recipe>,
                  favorites: seq<Favorite>, carts: seq<CartEntry>, caller: Caller, q: RecipeQuery, tags: seq<Tag>, x: Recipe)
    requires |q.tags| == 0
    requires multiset(byAuthor)[x] == if q.author.None? || x.author == q.author.value then multiset(recipes)[x] else 0
    requires favored == FilterIsFavorited(byAuthor, favorites, caller, q.isFavorited)
    requires carted == FilterIsInShoppingCart(favored, carts, caller, q.isInShoppingCart)
    ensures multiset(carted)[x] ==
      if Matches(x, q, tags, favorites, carts, caller) then multiset(recipes)[x] * JoinRows(favorites, carts, caller, q, x) else 0
  {
    var m := multiset(byAuthor)[x];
    var f := if q.isFavorited && caller.Authenticated? then FavoriteRows(favorites, caller.id, x) else 1;
    var c := if q.isInShoppingCart && caller.Authenticated? then CartRows(carts, caller.id, x) else 1;
    assert multiset(favored)[x] == m * f;
    assert multiset(carted)[x] == (m * f) * c;
    Associate(m, f, c);
    if q.isFavorited && caller.Authenticated? && !IsFavorited(favorites, caller, x.id) {
      assert f == 0;
    }
    if q.isInShoppingCart && caller.Authenticated? && !IsInShoppingCart(carts, caller, x.id) {
      assert c == 0;
    }
  }

  /** Regrouping of the three join multiplicities in `JoinCount`. */
  lemma Associate(a: nat, b: nat, c: nat)
    ensures (a * b) * c == a * (b * c)
    ensures a * 0 == 0 && 0 * a == 0
  {
  }

  /**
   The list endpoint with no parameters is the listing itself; with only
   `is_favorited=true` from an authenticated caller it is exactly the
   caller's favorites among the listed recipes, in listing order.
   */
  lemma OnlyFavoritedQuery(recipes: seq<Recipe>, users: seq<User>, tags: seq<Tag>, favorites: seq<Favorite>,
                           carts: seq<CartEntry>, user: Id)
    requires NoDup(favorites)
    ensures FilterRecipes(recipes, users, tags, favorites, carts, Authenticated(user), RecipeQuery([], None, false, false)) == Listed(recipes)
    ensures FilterRecipes(recipes, users, tags, favorites, carts, Authenticated(user), RecipeQuery([], None, true, false))
         == Listed(Filter(recipes, (x: Recipe) => Favorite(user, x.id) in favorites))
  {
    forall x | x in recipes ensures FavoriteRows(favorites, user, x) <= 1 {
      NoDupCount(favorites, Favorite(user, x.id));
    }
    var caller := Authenticated(user);
    WeightedAtMostOne(recipes, (x: Recipe) => FavoriteRows(favorites, caller.id, x), (x: Recipe) => Favorite(user, x.id) in favorites);
    FilterAll(recipes, (x: Recipe) => true);
  }

  /**
   A query with only tags, all known, over a listing without repeats lists
   exactly the recipes carrying one of the slugs, each once, in listing order.
   */
  lemma OnlyTagsQuery(recipes: seq<Recipe>, users: seq<User>, tags: seq<Tag>, favorites: seq<Favorite>,
                      carts: seq<CartEntry>, caller: Caller, slugs: seq<string>)
    requires NoDup(recipes) && |slugs| > 0 && KnownSlugs(tags, slugs)
    ensures FilterRecipes(recipes, users, tags, favorites, carts, caller, RecipeQuery(slugs, None, false, false))
         == Listed(Filter(recipes, (x: Recipe) => HasTagSlug(x, tags, slugs)))
  {
    var byTag := Filter(recipes, (x: Recipe) => HasTagSlug(x, tags, slugs));
    FilterNoDup(recipes, (x: Recipe) => HasTagSlug(x, tags, slugs));
    DistinctOfNoDup(byTag);
  }
}

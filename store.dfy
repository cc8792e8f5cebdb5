/**
 The relational store behind the API and the endpoints that change it: the
 favorite, shopping-cart and subscription toggles, recipe create, update and
 delete with their ingredient-row replacement, the cascades the foreign keys
 declare, and the shopping-list download. Each endpoint answers with a
 status code; response bodies are not modelled.
 */
module Store {
  import opened Seqs
  import opened Users
  import opened Recipes
  import opened Serializers
  import opened Filters
  import opened ShoppingList

  datatype Status = Ok | Created | NoContent | BadRequest | NotFound | ServerError

  /**
   The status of an endpoint that answers with `RecipeSerializer(recipe).data`
   after a successful write: `success` when the representation renders, and
   500 when it raises for want of a request in its context.
   */
  function RecipeResponse(ctx: SerializerContext, success: Status, x: Recipe, follows: seq<Follow>,
                          favorites: seq<Favorite>, carts: seq<CartEntry>): (s: Status)
    ensures ctx.NoRequest? ==> s == ServerError
    ensures ctx.WithRequest? ==> s == success
  {
    if RecipeRepresentation(ctx, x, follows, favorites, carts).None? then ServerError else success
  }

  /**
   Built with the request, the cart endpoint's answer would be 201 and would
   show the recipe as in the caller's cart, since the row was just written.
   */
  lemma IntendedCartResponse(caller: Id, x: Recipe, follows: seq<Follow>, favorites: seq<Favorite>, carts: seq<CartEntry>)
    ensures var ctx := WithRequest(Authenticated(caller));
      && RecipeResponse(ctx, Created, x, follows, favorites, carts + [CartEntry(caller, x.id)]) == Created
      && RecipeRepresentation(ctx, x, follows, favorites, carts + [CartEntry(caller, x.id)]).value.isInShoppingCart
  {
    assert CartEntry(caller, x.id) == (carts + [CartEntry(caller, x.id)])[|carts|];
  }

  /**
   Built with the request, the create endpoint's answer would be 201 and
   would show the new recipe as neither favorited nor in the cart, and its
   author (the caller) as not subscribed to themselves.
   */
  lemma IntendedCreateResponse(caller: Id, x: Recipe, follows: seq<Follow>, favorites: seq<Favorite>, carts: seq<CartEntry>)
    requires x.author == caller && NoSelfFollow(follows)
    requires forall f :: f in favorites ==> f.recipe != x.id
    requires forall c :: c in carts ==> c.recipe != x.id
    ensures var ctx := WithRequest(Authenticated(caller));
      && RecipeResponse(ctx, Created, x, follows, favorites, carts) == Created
      && RecipeRepresentation(ctx, x, follows, favorites, carts) == Some(RecipeFlags(false, false, false))
  {
    NotSubscribedToSelf(follows, caller);
  }

  /** The caller has at least one favorite row. */
  predicate HasFavorites(favorites: seq<Favorite>, user: Id)
  {
    exists f :: f in favorites && f.user == user
  }

  /**
   `request.user.favorites.all().delete()`: every favorite row of `user` goes,
   whatever the recipe; the rows of every other user keep their count.
   */
  function Unfavorited(favorites: seq<Favorite>, user: Id): (r: seq<Favorite>)
    ensures forall f :: f in r <==> f in favorites && f.user != user
    ensures forall f {:trigger multiset(r)[f]} :: multiset(r)[f] == if f.user == user then 0 else multiset(favorites)[f]
    ensures NoDup(favorites) ==> NoDup(r)
  {
    var keep := (f: Favorite) => f.user != user;
    assert forall f :: multiset(Filter(favorites, keep))[f] == if f.user == user then 0 else multiset(favorites)[f] by {
      forall f ensures multiset(Filter(favorites, keep))[f] == if f.user == user then 0 else multiset(favorites)[f] {
        FilterCount(favorites, keep, f);
      }
    }
    if NoDup(favorites) then FilterNoDup(favorites, keep); Filter(favorites, keep) else Filter(favorites, keep)
  }

  /** The cart after deleting the one row `get_object_or_404` found. */
  function WithoutEntry(carts: seq<CartEntry>, e: CartEntry): (r: seq<CartEntry>)
    requires multiset(carts)[e] == 1
    ensures multiset(r) == multiset(carts) - multiset{e}
  {
    var keep := (c: CartEntry) => c != e;
    forall c ensures multiset(Filter(carts, keep))[c] == (multiset(carts) - multiset{e})[c] {
      FilterCount(carts, keep, c);
    }
    Filter(carts, keep)
  }

  /** The follow table after `request.user.is_subscribed.filter(author=...).delete()`. */
  function Unfollowed(follows: seq<Follow>, user: Id, author: Id): (r: seq<Follow>)
    ensures forall f :: f in r <==> f in follows && f != Follow(user, author)
    ensures FollowConstraints(follows) ==> FollowConstraints(r)
  {
    var keep := (f: Follow) => f != Follow(user, author);
    if NoDup(follows) then FilterNoDup(follows, keep); Filter(follows, keep) else Filter(follows, keep)
  }

  /** The tag ids of a write as the many-to-many set. */
  function TagSet(ids: seq<Id>): (r: set<Id>)
    ensures forall t :: t in r <==> t in ids
  {
    set t | t in ids
  }

  /** The fields a full update sets; id, author and publication time stay. */
  function Edited(x: Recipe, w: RecipeWrite): (r: Recipe)
    ensures r.id == x.id && r.author == x.author && r.pub == x.pub
    ensures r.name == w.name && r.text == w.text && r.cookingTime == w.cookingTime && r.tags == TagSet(w.tags)
  {
    x.(name := w.name, text := w.text, cookingTime := w.cookingTime, tags := TagSet(w.tags))
  }

  /**
   The recipe table with the row whose id is `x.id` saved as `x`, in place:
   the stored keys stay as they are, `x` is stored exactly when its key was,
   and every row with another key is kept.
   */
  function Saved(recipes: seq<Recipe>, x: Recipe): (r: seq<Recipe>)
    ensures |r| == |recipes|
    ensures forall i :: 0 <= i < |r| ==> r[i] == if recipes[i].id == x.id then x else recipes[i]
    ensures RecipeIds(r) == RecipeIds(recipes)
    ensures forall y :: y in r <==> (y in recipes && y.id != x.id) || (y == x && x.id in RecipeIds(recipes))
    ensures RecipesUnique(recipes) ==> RecipesUnique(r)
  {
    var r := seq(|recipes|, i requires 0 <= i < |recipes| => if recipes[i].id == x.id then x else recipes[i]);
    forall y | y in r ensures (y == x && x.id in RecipeIds(recipes)) || (y in recipes && y.id != x.id) {
      var k :| 0 <= k < |r| && r[k] == y;
      assert recipes[k] in recipes;
    }
    forall y | y in recipes && y.id != x.id ensures y in r {
      var k :| 0 <= k < |recipes| && recipes[k] == y;
      assert r[k] == y;
    }
    forall y | y in recipes && y.id == x.id ensures x in r {
      var k :| 0 <= k < |recipes| && recipes[k] == y;
      assert r[k] == x;
    }
    r
  }

  /**
   What holds of the tables between requests: unique keys, the follow
   constraints, every foreign key pointing at a stored row, recipe ids below
   the next key, and `cooking_time >= 1`. The last is a model validator, not
   a database constraint; it holds because every write that reaches the
   table has passed the serializer's [1, 32000] bound.
   */
  predicate Consistent(users: seq<User>, tags: seq<Tag>, ingredients: seq<Ingredient>, recipes: seq<Recipe>,
                       rows: seq<RecipeIngredient>, favorites: seq<Favorite>, carts: seq<CartEntry>,
                       follows: seq<Follow>, nextRecipeId: nat)
  {
    && AccountsUnique(users) && TagsUnique(tags) && IngredientsUnique(ingredients) && RecipesUnique(recipes)
    && FollowConstraints(follows)
    && (forall x :: x in recipes ==>
          CookingTimeValid(x) && x.author in UserIds(users) && x.tags <= TagIds(tags) && x.id < nextRecipeId)
    && (forall ri :: ri in rows ==> ri.recipe in RecipeIds(recipes) && ri.ingredient in IngredientIds(ingredients))
    && (forall f :: f in favorites ==> f.user in UserIds(users) && f.recipe in RecipeIds(recipes))
    && (forall c :: c in carts ==> c.user in UserIds(users) && c.recipe in RecipeIds(recipes))
    && (forall f :: f in follows ==> f.user in UserIds(users) && f.author in UserIds(users))
  }

  /** The recipe table without the recipe `id`. */
  function RecipesWithout(recipes: seq<Recipe>, id: Id): (r: seq<Recipe>)
    ensures forall x {:trigger multiset(r)[x]} :: multiset(r)[x] == if x.id == id then 0 else multiset(recipes)[x]
    ensures forall x :: x in r <==> x in recipes && x.id != id
    ensures RecipeIds(r) == RecipeIds(recipes) - {id}
    ensures RecipesUnique(recipes) ==> RecipesUnique(r)
  {
    var keep := (x: Recipe) => x.id != id;
    RecipeIdsWithout(recipes, keep, id);
    forall x ensures multiset(Filter(recipes, keep))[x] == if x.id == id then 0 else multiset(recipes)[x] {
      FilterCount(recipes, keep, x);
    }
    if RecipesUnique(recipes) then FilterUniqueBy(recipes, keep, RecipeKey); Filter(recipes, keep)
    else Filter(recipes, keep)
  }

  /** The cart rows that survive the deletion of recipe `id`, each as often as before. */
  function CartsWithoutRecipe(carts: seq<CartEntry>, id: Id): (r: seq<CartEntry>)
    ensures forall c {:trigger multiset(r)[c]} :: multiset(r)[c] == if c.recipe == id then 0 else multiset(carts)[c]
    ensures forall c :: c in r <==> c in carts && c.recipe != id
  {
    var keep := (c: CartEntry) => c.recipe != id;
    forall c ensures multiset(Filter(carts, keep))[c] == if c.recipe == id then 0 else multiset(carts)[c] {
      FilterCount(carts, keep, c);
    }
    Filter(carts, keep)
  }

  /** The favorite rows that survive the deletion of recipe `id`, each as often as before. */
  function FavoritesWithoutRecipe(favorites: seq<Favorite>, id: Id): (r: seq<Favorite>)
    ensures forall f {:trigger multiset(r)[f]} :: multiset(r)[f] == if f.recipe == id then 0 else multiset(favorites)[f]
    ensures forall f :: f in r <==> f in favorites && f.recipe != id
    ensures NoDup(favorites) ==> NoDup(r)
  {
    var keep := (f: Favorite) => f.recipe != id;
    forall f ensures multiset(Filter(favorites, keep))[f] == if f.recipe == id then 0 else multiset(favorites)[f] {
      FilterCount(favorites, keep, f);
    }
    if NoDup(favorites) then FilterNoDup(favorites, keep); Filter(favorites, keep) else Filter(favorites, keep)
  }

  /** Deleting a recipe and the rows that cascade from it keeps the store consistent. */
  lemma DeleteRecipeConsistent(users: seq<User>, tags: seq<Tag>, ingredients: seq<Ingredient>, recipes: seq<Recipe>,
                               rows: seq<RecipeIngredient>, favorites: seq<Favorite>, carts: seq<CartEntry>,
                               follows: seq<Follow>, next: nat, id: Id)
    requires Consistent(users, tags, ingredients, recipes, rows, favorites, carts, follows, next)
    ensures Consistent(users, tags, ingredients, RecipesWithout(recipes, id), RowsNotOf(rows, id),
                       FavoritesWithoutRecipe(favorites, id), CartsWithoutRecipe(carts, id), follows, next)
  {
  }

  /** The user table without the user `id`. */
  function UsersWithout(users: seq<User>, id: Id): (r: seq<User>)
    ensures forall u {:trigger multiset(r)[u]} :: multiset(r)[u] == if u.id == id then 0 else multiset(users)[u]
    ensures forall u :: u in r <==> u in users && u.id != id
    ensures UserIds(r) == UserIds(users) - {id}
    ensures AccountsUnique(users) ==> AccountsUnique(r)
  {
    var keep := (u: User) => u.id != id;
    UserIdsWithout(users, keep, id);
    forall u ensures multiset(Filter(users, keep))[u] == if u.id == id then 0 else multiset(users)[u] {
      FilterCount(users, keep, u);
    }
    if AccountsUnique(users) then
      FilterUniqueBy(users, keep, UserKey);
      FilterUniqueBy(users, keep, UsernameOf);
      FilterUniqueBy(users, keep, EmailOf);
      Filter(users, keep)
    else Filter(users, keep)
  }

  /** The recipes whose author is not `author`, each as often as before. */
  function RecipesNotBy(recipes: seq<Recipe>, author: Id): (r: seq<Recipe>)
    ensures forall x {:trigger multiset(r)[x]} :: multiset(r)[x] == if x.author == author then 0 else multiset(recipes)[x]
    ensures forall x :: x in r <==> x in recipes && x.author != author
    ensures RecipesUnique(recipes) ==> RecipesUnique(r)
  {
    var keep := (x: Recipe) => x.author != author;
    forall x ensures multiset(Filter(recipes, keep))[x] == if x.author == author then 0 else multiset(recipes)[x] {
      FilterCount(recipes, keep, x);
    }
    if RecipesUnique(recipes) then FilterUniqueBy(recipes, keep, RecipeKey); Filter(recipes, keep)
    else Filter(recipes, keep)
  }

  /** The ingredient rows whose recipe is among `live`, each as often as before. */
  function RowsOfRecipes(rows: seq<RecipeIngredient>, live: set<Id>): (r: seq<RecipeIngredient>)
    ensures forall ri {:trigger multiset(r)[ri]} :: multiset(r)[ri] == if ri.recipe in live then multiset(rows)[ri] else 0
    ensures forall ri :: ri in r <==> ri in rows && ri.recipe in live
  {
    var keep := (ri: RecipeIngredient) => ri.recipe in live;
    forall ri ensures multiset(Filter(rows, keep))[ri] == if ri.recipe in live then multiset(rows)[ri] else 0 {
      FilterCount(rows, keep, ri);
    }
    Filter(rows, keep)
  }

  /** The cart rows whose recipe is among `live`, each as often as before. */
  function CartsOfRecipes(carts: seq<CartEntry>, live: set<Id>): (r: seq<CartEntry>)
    ensures forall c {:trigger multiset(r)[c]} :: multiset(r)[c] == if c.recipe in live then multiset(carts)[c] else 0
    ensures forall c :: c in r <==> c in carts && c.recipe in live
  {
    var keep := (c: CartEntry) => c.recipe in live;
    forall c ensures multiset(Filter(carts, keep))[c] == if c.recipe in live then multiset(carts)[c] else 0 {
      FilterCount(carts, keep, c);
    }
    Filter(carts, keep)
  }

  /** The favorite rows whose recipe is among `live`, each as often as before. */
  function FavoritesOfRecipes(favorites: seq<Favorite>, live: set<Id>): (r: seq<Favorite>)
    ensures forall f {:trigger multiset(r)[f]} :: multiset(r)[f] == if f.recipe in live then multiset(favorites)[f] else 0
    ensures forall f :: f in r <==> f in favorites && f.recipe in live
    ensures NoDup(favorites) ==> NoDup(r)
  {
    var keep := (f: Favorite) => f.recipe in live;
    forall f ensures multiset(Filter(favorites, keep))[f] == if f.recipe in live then multiset(favorites)[f] else 0 {
      FilterCount(favorites, keep, f);
    }
    if NoDup(favorites) then FilterNoDup(favorites, keep); Filter(favorites, keep) else Filter(favorites, keep)
  }

  /** The cart rows of users other than `user`, each as often as before. */
  function CartsNotOf(carts: seq<CartEntry>, user: Id): (r: seq<CartEntry>)
    ensures forall c {:trigger multiset(r)[c]} :: multiset(r)[c] == if c.user == user then 0 else multiset(carts)[c]
    ensures forall c :: c in r <==> c in carts && c.user != user
  {
    var keep := (c: CartEntry) => c.user != user;
    forall c ensures multiset(Filter(carts, keep))[c] == if c.user == user then 0 else multiset(carts)[c] {
      FilterCount(carts, keep, c);
    }
    Filter(carts, keep)
  }

  /** Deleting an author's recipes and the rows that cascade from them keeps the store consistent. */
  lemma DeleteRecipesByConsistent(users: seq<User>, tags: seq<Tag>, ingredients: seq<Ingredient>, recipes: seq<Recipe>,
                                  rows: seq<RecipeIngredient>, favorites: seq<Favorite>, carts: seq<CartEntry>,
                                  follows: seq<Follow>, next: nat, author: Id)
    requires Consistent(users, tags, ingredients, recipes, rows, favorites, carts, follows, next)
    ensures var kept := RecipesNotBy(recipes, author);
      Consistent(users, tags, ingredients, kept, RowsOfRecipes(rows, RecipeIds(kept)),
                 FavoritesOfRecipes(favorites, RecipeIds(kept)), CartsOfRecipes(carts, RecipeIds(kept)), follows, next)
  {
  }

  /**
   Deleting a user who has no recipes left, with their cart rows, favorite
   rows and subscriptions, keeps the store consistent.
   */
  lemma DeleteAccountConsistent(users: seq<User>, tags: seq<Tag>, ingredients: seq<Ingredient>, recipes: seq<Recipe>,
                                rows: seq<RecipeIngredient>, favorites: seq<Favorite>, carts: seq<CartEntry>,
                                follows: seq<Follow>, next: nat, id: Id)
    requires Consistent(users, tags, ingredients, recipes, rows, favorites, carts, follows, next)
    requires forall x :: x in recipes ==> x.author != id
    ensures Consistent(UsersWithout(users, id), tags, ingredients, recipes, rows,
                       Unfavorited(favorites, id), CartsNotOf(carts, id), FollowsWithoutUser(follows, id), next)
  {
  }

  /** The ingredient table without the ingredient `id`. */
  function IngredientsWithout(ingredients: seq<Ingredient>, id: Id): (r: seq<Ingredient>)
    ensures forall i {:trigger multiset(r)[i]} :: multiset(r)[i] == if i.id == id then 0 else multiset(ingredients)[i]
    ensures forall i :: i in r <==> i in ingredients && i.id != id
    ensures IngredientIds(r) == IngredientIds(ingredients) - {id}
    ensures IngredientsUnique(ingredients) ==> IngredientsUnique(r)
  {
    var keep := (i: Ingredient) => i.id != id;
    IngredientIdsWithout(ingredients, keep, id);
    forall i ensures multiset(Filter(ingredients, keep))[i] == if i.id == id then 0 else multiset(ingredients)[i] {
      FilterCount(ingredients, keep, i);
    }
    if IngredientsUnique(ingredients) then FilterUniqueBy(ingredients, keep, IngredientKey); Filter(ingredients, keep)
    else Filter(ingredients, keep)
  }

  /** The recipe rows that do not use ingredient `id`, each as often as before. */
  function RowsWithoutIngredient(rows: seq<RecipeIngredient>, id: Id): (r: seq<RecipeIngredient>)
    ensures forall ri {:trigger multiset(r)[ri]} :: multiset(r)[ri] == if ri.ingredient == id then 0 else multiset(rows)[ri]
    ensures forall ri :: ri in r <==> ri in rows && ri.ingredient != id
  {
    var keep := (ri: RecipeIngredient) => ri.ingredient != id;
    forall ri ensures multiset(Filter(rows, keep))[ri] == if ri.ingredient == id then 0 else multiset(rows)[ri] {
      FilterCount(rows, keep, ri);
    }
    Filter(rows, keep)
  }

  /** Deleting an ingredient and the recipe rows that use it keeps the store consistent. */
  lemma DeleteIngredientConsistent(users: seq<User>, tags: seq<Tag>, ingredients: seq<Ingredient>, recipes: seq<Recipe>,
                                   rows: seq<RecipeIngredient>, favorites: seq<Favorite>, carts: seq<CartEntry>,
                                   follows: seq<Follow>, next: nat, id: Id)
    requires Consistent(users, tags, ingredients, recipes, rows, favorites, carts, follows, next)
    ensures Consistent(users, tags, IngredientsWithout(ingredients, id), recipes, RowsWithoutIngredient(rows, id),
                       favorites, carts, follows, next)
  {
  }

  class Store {
    var users: seq<User>
    var tags: seq<Tag>
    var ingredients: seq<Ingredient>
    var recipes: seq<Recipe>
    var recipeIngredients: seq<RecipeIngredient>
    var favorites: seq<Favorite>
    var carts: seq<CartEntry>
    var follows: seq<Follow>
    /** The next primary key the recipe table hands out. */
    var nextRecipeId: nat

    /** The tables meet `Consistent`: unique keys, the follow constraints, stored foreign keys. */
    predicate Valid()
      reads this
    {
      Consistent(users, tags, ingredients, recipes, recipeIngredients, favorites, carts, follows, nextRecipeId)
    }

    constructor ()
      ensures Valid()
      ensures users == [] && tags == [] && ingredients == [] && recipes == []
      ensures recipeIngredients == [] && favorites == [] && carts == [] && follows == []
    {
      users, tags, ingredients, recipes := [], [], [], [];
      recipeIngredients, favorites, carts, follows := [], [], [], [];
      nextRecipeId := 1;
    }

    /**
     `POST /recipes/{id}/favorite/`: 404 for an unknown recipe; otherwise
     `get_or_create` — a new row and 201, or 400 when the row exists. Two or
     more rows make `get_or_create` raise, which is a 500.
     */
    method FavoritePost(caller: Id, recipe: Id) returns (status: Status)
      requires Valid() && caller in UserIds(users)
      modifies this`favorites
      ensures Valid()
      ensures recipe !in RecipeIds(recipes) ==> status == NotFound && favorites == old(favorites)
      ensures recipe in RecipeIds(recipes) && Favorite(caller, recipe) !in old(favorites) ==>
        status == Created && favorites == old(favorites) + [Favorite(caller, recipe)]
      ensures recipe in RecipeIds(recipes) && multiset(old(favorites))[Favorite(caller, recipe)] == 1 ==>
        status == BadRequest && favorites == old(favorites)
      ensures recipe in RecipeIds(recipes) && multiset(old(favorites))[Favorite(caller, recipe)] >= 2 ==>
        status == ServerError && favorites == old(favorites)
      ensures NoDup(old(favorites)) ==> NoDup(favorites)
    {
      if recipe !in RecipeIds(recipes) {
        return NotFound;
      }
      var f := Favorite(caller, recipe);
      var n := multiset(favorites)[f];
      if n >= 2 {
        return ServerError;
      }
      if n == 1 {
        return BadRequest;
      }
      if NoDup(favorites) {
        AppendNoDup(favorites, f);
      }
      favorites := favorites + [f];
      status := Created;
    }

    /**
     `DELETE /recipes/{id}/favorite/`: 404 for an unknown recipe; otherwise,
     when the caller has any favorite at all, every favorite of the caller
     is deleted (not only this recipe's) and the answer is 204; a caller
     with no favorites gets 400.
     */
    method FavoriteDelete(caller: Id, recipe: Id) returns (status: Status)
      requires Valid()
      modifies this`favorites
      ensures Valid()
      ensures recipe !in RecipeIds(recipes) ==> status == NotFound && favorites == old(favorites)
      ensures recipe in RecipeIds(recipes) && HasFavorites(old(favorites), caller) ==>
        status == NoContent && favorites == Unfavorited(old(favorites), caller)
      ensures recipe in RecipeIds(recipes) && !HasFavorites(old(favorites), caller) ==>
        status == BadRequest && favorites == old(favorites)
      ensures NoDup(old(favorites)) ==> NoDup(favorites)
    {
      if recipe !in RecipeIds(recipes) {
        return NotFound;
      }
      if HasFavorites(favorites, caller) {
        favorites := Unfavorited(favorites, caller);
        return NoContent;
      }
      return BadRequest;
    }

    /**
     `POST /recipes/{id}/shopping_cart/`: 404 for an unknown recipe, else a
     new row. There is no existence check, so the cart is a multiset. The
     answer is built with `RecipeSerializer(recipe)`, which has no request in
     its context, so rendering it raises after the row is written: 500.
     */
    method CartPost(caller: Id, recipe: Id) returns (status: Status)
      requires Valid() && caller in UserIds(users)
      modifies this`carts
      ensures Valid()
      ensures recipe !in RecipeIds(recipes) ==> status == NotFound && carts == old(carts)
      ensures recipe in RecipeIds(recipes) ==> status == ServerError && carts == old(carts) + [CartEntry(caller, recipe)]
      ensures recipe in RecipeIds(recipes) ==>
        multiset(carts)[CartEntry(caller, recipe)] == multiset(old(carts))[CartEntry(caller, recipe)] + 1
    {
      if recipe !in RecipeIds(recipes) {
        return NotFound;
      }
      carts := carts + [CartEntry(caller, recipe)];
      status := RecipeResponse(NoRequest, Created, RecipeById(recipes, recipe).value, follows, favorites, carts);
    }

    /**
     `DELETE /recipes/{id}/shopping_cart/`: 404 for an unknown recipe or a
     missing row; one row is deleted with 204; with two or more rows
     `get_object_or_404` raises, which is a 500.
     */
    method CartDelete(caller: Id, recipe: Id) returns (status: Status)
      requires Valid()
      modifies this`carts
      ensures Valid()
      ensures recipe !in RecipeIds(recipes) ==> status == NotFound && carts == old(carts)
      ensures recipe in RecipeIds(recipes) && CartEntry(caller, recipe) !in old(carts) ==>
        status == NotFound && carts == old(carts)
      ensures recipe in RecipeIds(recipes) && multiset(old(carts))[CartEntry(caller, recipe)] == 1 ==>
        status == NoContent && multiset(carts) == multiset(old(carts)) - multiset{CartEntry(caller, recipe)}
      ensures recipe in RecipeIds(recipes) && multiset(old(carts))[CartEntry(caller, recipe)] >= 2 ==>
        status == ServerError && carts == old(carts)
    {
      if recipe !in RecipeIds(recipes) {
        return NotFound;
      }
      var e := CartEntry(caller, recipe);
      var n := multiset(carts)[e];
      if n == 0 {
        return NotFound;
      }
      if n >= 2 {
        return ServerError;
      }
      carts := WithoutEntry(carts, e);
      forall c | c in carts ensures c in old(carts) {
        assert c in multiset(carts);
      }
      status := NoContent;
    }

    /**
     `POST /users/{id}/subscribe/`: 404 for an unknown user; 400 for oneself
     or for an author already followed; otherwise exactly the row
     (caller, author) is added and the answer is 201.
     */
    method FollowCreate(caller: Id, author: Id) returns (status: Status)
      requires Valid() && caller in UserIds(users)
      modifies this`follows
      ensures Valid()
      ensures author !in UserIds(users) ==> status == NotFound && follows == old(follows)
      ensures author in UserIds(users) && (caller == author || Follow(caller, author) in old(follows)) ==>
        status == BadRequest && follows == old(follows)
      ensures author in UserIds(users) && caller != author && Follow(caller, author) !in old(follows) ==>
        status == Created && follows == old(follows) + [Follow(caller, author)]
    {
      if author !in UserIds(users) {
        return NotFound;
      }
      if caller == author {
        return BadRequest;
      }
      if Follow(caller, author) in follows {
        return BadRequest;
      }
      FollowChecksMatchConstraints(follows, caller, author);
      follows := follows + [Follow(caller, author)];
      status := Created;
    }

    /**
     `GET /users/{id}/subscribe/`: the view lists `RetrieveDestroyAPIView`
     first, so GET is `retrieve`, whose object is the user found by id (404
     otherwise). The follow serializer then reads that user as if it were a
     subscription: the read-only `author.*` fields are skipped, but
     `get_is_subscribed` reads `obj.user`, which a user does not have, so
     the answer is 500.
     */
    function FollowRetrieve(author: Id): (status: Status)
      reads this
      ensures status == NotFound <==> author !in UserIds(users)
      ensures status == ServerError <==> author in UserIds(users)
    {
      match UserById(users, author)
      case None => NotFound
      case Some(_) => ServerError
    }

    /**
     `DELETE /users/{id}/subscribe/`: 404 only for an unknown user; otherwise
     every (caller, author) row is deleted, none being no error, and 204.
     */
    method FollowDestroy(caller: Id, author: Id) returns (status: Status)
      requires Valid()
      modifies this`follows
      ensures Valid()
      ensures author !in UserIds(users) ==> status == NotFound && follows == old(follows)
      ensures author in UserIds(users) ==> status == NoContent && follows == Unfollowed(old(follows), caller, author)
    {
      if author !in UserIds(users) {
        return NotFound;
      }
      follows := Unfollowed(follows, caller, author);
      status := NoContent;
    }

    /**
     `update_ingredients`: build one row per submitted item, delete the
     recipe's rows, bulk-insert the new ones. Afterwards the recipe's rows are
     exactly the submission and every other recipe keeps its rows.
     */
    method UpdateIngredients(recipe: Id, items: seq<IngredientAmount>)
      requires Valid() && recipe in RecipeIds(recipes) && ValidItems(items, IngredientIds(ingredients))
      modifies this`recipeIngredients
      ensures Valid()
      ensures recipeIngredients == RowsNotOf(old(recipeIngredients), recipe) + RowsOf(recipeIngredients, recipe)
      ensures ItemsOf(RowsOf(recipeIngredients, recipe)) == items
      ensures forall other :: other != recipe ==> RowsOf(recipeIngredients, other) == RowsOf(old(recipeIngredients), other)
    {
      var rows := BuildRows(recipe, items);
      ReplaceRows(recipeIngredients, recipe, rows);
      forall ri | ri in rows ensures ri.ingredient in IngredientIds(ingredients) {
        var k :| 0 <= k < |rows| && rows[k] == ri;
        assert ItemsOf(rows)[k] == items[k];
      }
      recipeIngredients := RowsNotOf(recipeIngredients, recipe) + rows;
    }

    /**
     `POST /recipes/`: a write that fails validation is a 400 with nothing
     written; otherwise a new recipe by the caller with a fresh id, the
     submitted fields and the clock's time, whose ingredient rows are the
     submission. The response is `to_representation`, which builds
     `RecipeSerializer(instance)` without a request, so it raises after the
     writes: 500.
     */
    method CreateRecipe(caller: Id, w: RecipeWrite, now: int) returns (status: Status, id: Id)
      requires Valid() && caller in UserIds(users)
      modifies this`recipes, this`recipeIngredients, this`nextRecipeId
      ensures Valid()
      ensures WriteErrors(w, IngredientIds(ingredients), TagIds(tags)) != {} ==>
        status == BadRequest && recipes == old(recipes) && recipeIngredients == old(recipeIngredients)
      ensures WriteErrors(w, IngredientIds(ingredients), TagIds(tags)) == {} ==>
        && status == ServerError
        && id !in RecipeIds(old(recipes))
        && recipes == old(recipes) + [Recipe(id, caller, w.name, w.text, w.cookingTime, TagSet(w.tags), now)]
        && ItemsOf(RowsOf(recipeIngredients, id)) == w.ingredients
        && recipeIngredients == old(recipeIngredients) + RowsOf(recipeIngredients, id)
    {
      id := nextRecipeId;
      if WriteErrors(w, IngredientIds(ingredients), TagIds(tags)) != {} {
        return BadRequest, id;
      }
      var x := Recipe(id, caller, w.name, w.text, w.cookingTime, TagSet(w.tags), now);
      assert id !in RecipeIds(recipes);
      assert forall ri :: ri in recipeIngredients ==> ri.recipe != id;
      RowsNotOfNone(recipeIngredients, id);
      assert CookingTimeValid(x) && x.tags <= TagIds(tags);
      RecipeIdsAppend(recipes, x);
      recipes := recipes + [x];
      nextRecipeId := nextRecipeId + 1;
      UpdateIngredients(id, w.ingredients);
      status := RecipeResponse(NoRequest, Created, x, follows, favorites, carts);
    }

    /**
     `PUT /recipes/{id}/`: 404 for an unknown recipe, 400 for a write that
     fails validation; otherwise the recipe is saved with the submitted
     fields (id, author and publication time unchanged), and its ingredient
     rows are replaced by the submission; the response raises as for a
     create, after the writes: 500.
     */
    method UpdateRecipe(id: Id, w: RecipeWrite) returns (status: Status)
      requires Valid()
      modifies this`recipes, this`recipeIngredients
      ensures Valid()
      ensures id !in RecipeIds(old(recipes)) ==>
        status == NotFound && recipes == old(recipes) && recipeIngredients == old(recipeIngredients)
      ensures id in RecipeIds(old(recipes)) && WriteErrors(w, IngredientIds(ingredients), TagIds(tags)) != {} ==>
        status == BadRequest && recipes == old(recipes) && recipeIngredients == old(recipeIngredients)
      ensures id in RecipeIds(old(recipes)) && WriteErrors(w, IngredientIds(ingredients), TagIds(tags)) == {} ==>
        && status == ServerError
        && RecipeIds(recipes) == RecipeIds(old(recipes))
        && RecipeById(recipes, id) == Some(Edited(RecipeById(old(recipes), id).value, w))
        && (forall y :: y in old(recipes) && y.id != id ==> y in recipes)
        && ItemsOf(RowsOf(recipeIngredients, id)) == w.ingredients
        && (forall other :: other != id ==> RowsOf(recipeIngredients, other) == RowsOf(old(recipeIngredients), other))
    {
      var found := RecipeById(recipes, id);
      if found.None? {
        return NotFound;
      }
      if WriteErrors(w, IngredientIds(ingredients), TagIds(tags)) != {} {
        return BadRequest;
      }
      var x := Edited(found.value, w);
      var updated := Saved(recipes, x);
      recipes := updated;
      RecipeByIdFinds(recipes, x);
      UpdateIngredients(id, w.ingredients);
      status := RecipeResponse(NoRequest, Ok, x, follows, favorites, carts);
    }

    /**
     `DELETE /recipes/{id}/`: 404 for an unknown recipe; otherwise the recipe
     goes, and with it (by cascade) its ingredient rows, cart rows and
     favorite rows; 204.
     */
    method DeleteRecipe(id: Id) returns (status: Status)
      requires Valid()
      modifies this
      ensures Valid()
      ensures users == old(users) && tags == old(tags) && ingredients == old(ingredients)
      ensures follows == old(follows) && nextRecipeId == old(nextRecipeId)
      ensures id !in RecipeIds(old(recipes)) ==>
        && status == NotFound && recipes == old(recipes)
        && recipeIngredients == old(recipeIngredients) && carts == old(carts) && favorites == old(favorites)
      ensures id in RecipeIds(old(recipes)) ==>
        && status == NoContent
        && recipes == RecipesWithout(old(recipes), id)
        && recipeIngredients == RowsNotOf(old(recipeIngredients), id)
        && carts == CartsWithoutRecipe(old(carts), id)
        && favorites == FavoritesWithoutRecipe(old(favorites), id)
    {
      if id !in RecipeIds(recipes) {
        return NotFound;
      }
      DeleteRecipeConsistent(users, tags, ingredients, recipes, recipeIngredients, favorites, carts, follows, nextRecipeId, id);
      var kept, rows, cartRows, favoriteRows :=
        RecipesWithout(recipes, id), RowsNotOf(recipeIngredients, id),
        CartsWithoutRecipe(carts, id), FavoritesWithoutRecipe(favorites, id);
      recipes, recipeIngredients, carts, favorites := kept, rows, cartRows, favoriteRows;
      status := NoContent;
    }

    /**
     Deleting a user cascades to their recipes (and so to those recipes'
     ingredient, cart and favorite rows), their own cart and favorite rows,
     and every subscription in which they are follower or author.
     */
    method DeleteUser(id: Id)
      requires Valid() && id in UserIds(users)
      modifies this
      ensures Valid()
      ensures tags == old(tags) && ingredients == old(ingredients) && nextRecipeId == old(nextRecipeId)
      ensures users == UsersWithout(old(users), id)
      ensures recipes == RecipesNotBy(old(recipes), id)
      ensures recipeIngredients == RowsOfRecipes(old(recipeIngredients), RecipeIds(recipes))
      ensures carts == CartsNotOf(CartsOfRecipes(old(carts), RecipeIds(recipes)), id)
      ensures favorites == Unfavorited(FavoritesOfRecipes(old(favorites), RecipeIds(recipes)), id)
      ensures follows == FollowsWithoutUser(old(follows), id)
    {
      DeleteRecipesBy(id);
      DeleteAccount(id);
    }

    /** The first half of the user cascade: the user's recipes and the rows that hang off them. */
    method DeleteRecipesBy(author: Id)
      requires Valid()
      modifies this
      ensures Valid()
      ensures users == old(users) && tags == old(tags) && ingredients == old(ingredients)
      ensures follows == old(follows) && nextRecipeId == old(nextRecipeId)
      ensures recipes == RecipesNotBy(old(recipes), author)
      ensures recipeIngredients == RowsOfRecipes(old(recipeIngredients), RecipeIds(recipes))
      ensures carts == CartsOfRecipes(old(carts), RecipeIds(recipes))
      ensures favorites == FavoritesOfRecipes(old(favorites), RecipeIds(recipes))
    {
      DeleteRecipesByConsistent(users, tags, ingredients, recipes, recipeIngredients, favorites, carts, follows, nextRecipeId, author);
      var kept := RecipesNotBy(recipes, author);
      var live := RecipeIds(kept);
      recipes, recipeIngredients, carts, favorites :=
        kept, RowsOfRecipes(recipeIngredients, live), CartsOfRecipes(carts, live), FavoritesOfRecipes(favorites, live);
    }

    /** The second half of the user cascade: the account, its cart and favorite rows, its subscriptions. */
    method DeleteAccount(id: Id)
      requires Valid() && forall x :: x in recipes ==> x.author != id
      modifies this
      ensures Valid()
      ensures tags == old(tags) && ingredients == old(ingredients) && recipes == old(recipes)
      ensures recipeIngredients == old(recipeIngredients) && nextRecipeId == old(nextRecipeId)
      ensures users == UsersWithout(old(users), id)
      ensures carts == CartsNotOf(old(carts), id)
      ensures favorites == Unfavorited(old(favorites), id)
      ensures follows == FollowsWithoutUser(old(follows), id)
    {
      DeleteAccountConsistent(users, tags, ingredients, recipes, recipeIngredients, favorites, carts, follows, nextRecipeId, id);
      users, carts, favorites, follows :=
        UsersWithout(users, id), CartsNotOf(carts, id), Unfavorited(favorites, id), FollowsWithoutUser(follows, id);
    }

    /** Deleting an ingredient cascades to every recipe row that uses it. */
    method DeleteIngredient(id: Id)
      requires Valid()
      modifies this`ingredients, this`recipeIngredients
      ensures Valid()
      ensures ingredients == IngredientsWithout(old(ingredients), id)
      ensures recipeIngredients == RowsWithoutIngredient(old(recipeIngredients), id)
    {
      DeleteIngredientConsistent(users, tags, ingredients, recipes, recipeIngredients, favorites, carts, follows, nextRecipeId, id);
      ingredients := IngredientsWithout(ingredients, id);
      recipeIngredients := RowsWithoutIngredient(recipeIngredients, id);
    }

    /**
     `GET /recipes/download_shopping_cart/`: the caller's cart joined to the
     ingredient rows, grouped and summed, rendered under the header. In a
     consistent store the entries are one per (name, unit) pair of an
     ingredient row of a recipe in the caller's cart, each pair once.
     */
    method DownloadShoppingCart(caller: Id) returns (text: string)
      ensures text == HEADER + Joined(Grouped(CartLines(recipeIngredients, ingredients, carts, caller)))
      ensures DistinctKeys(Grouped(CartLines(recipeIngredients, ingredients, carts, caller)))
      ensures Valid() ==>
        GroupKeys(Grouped(CartLines(recipeIngredients, ingredients, carts, caller)))
        == CartKeys(recipeIngredients, ingredients, carts, caller)
    {
      var lines := CartLines(recipeIngredients, ingredients, carts, caller);
      var groups := Grouped(lines);
      GroupedTotals(lines);
      if Valid() {
        CartLineKeys(recipeIngredients, ingredients, carts, caller);
      }
      text := RenderShoppingList(groups);
    }

    /**
     `GET /recipes/`: the filter set over the listing newest first. It is a
     400 exactly when a tag slug or the author is unknown, and otherwise
     lists exactly the stored recipes that match, newest first: with tags
     each once, without tags each once per row of the boolean joins.
     */
    function ListRecipes(caller: Caller, q: RecipeQuery): (r: Listing)
      reads this
      ensures r.InvalidParameter? <==>
        (|q.tags| > 0 && !KnownSlugs(tags, q.tags)) || (q.author.Some? && q.author.value !in UserIds(users))
      ensures r.Listed? ==> forall x :: x in r.recipes <==> x in recipes && Matches(x, q, tags, favorites, carts, caller)
      ensures r.Listed? ==> DescendingBy(r.recipes, Pub)
      ensures r.Listed? && |q.tags| > 0 ==> NoDup(r.recipes)
      ensures Valid() && r.Listed? && |q.tags| == 0 ==> forall x {:trigger multiset(r.recipes)[x]} ::
        multiset(r.recipes)[x] ==
          if x in recipes && Matches(x, q, tags, favorites, carts, caller) then JoinRows(favorites, carts, caller, q, x) else 0
    {
      var ordered := NewestFirst(recipes);
      SameMembers(ordered, recipes);
      if Valid() then
        RecipesUniqueNoDup(recipes);
        forall x ensures multiset(ordered)[x] == if x in recipes then 1 else 0 {
          NoDupCount(recipes, x);
        }
        FilterRecipes(ordered, users, tags, favorites, carts, caller, q)
      else FilterRecipes(ordered, users, tags, favorites, carts, caller, q)
    }

    /** `GET /users/subscriptions/`: the caller's subscriptions, each as often as stored, by descending author id. */
    function Subscriptions(caller: Id): (r: seq<Follow>)
      reads this
      ensures forall f :: f in r <==> f in follows && f.user == caller
      ensures forall f {:trigger multiset(r)[f]} :: multiset(r)[f] == if f.user == caller then multiset(follows)[f] else 0
      ensures forall i, j :: 0 <= i < j < |r| ==> r[i].author >= r[j].author
    {
      var mine := Filter(follows, (f: Follow) => f.user == caller);
      forall f ensures multiset(mine)[f] == if f.user == caller then multiset(follows)[f] else 0 {
        FilterCount(follows, (f: Follow) => f.user == caller, f);
      }
      var r := OrderedFollows(mine);
      SameMembers(r, mine);
      r
    }
  }
}

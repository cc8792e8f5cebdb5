/**
 The representation layer: the range checks of the recipe write shape, the
 list of ingredient rows a recipe write produces, the replacement of a
 recipe's ingredient rows, and the caller-relative computed fields of the
 read shapes (`is_favorited`, `is_in_shopping_cart`, `is_subscribed`,
 `recipes_count`).
 */
module Serializers {
  import opened Seqs
  import opened Users
  import opened Recipes

  /** Bounds shared by an ingredient amount and the cooking time of a recipe write. */
  const MIN_AMOUNT := 1
  const MAX_AMOUNT := 32000

  predicate InRange(v: int)
  {
    MIN_AMOUNT <= v <= MAX_AMOUNT
  }

  /** One element of the submitted `ingredients` list: `{"id": ..., "amount": ...}`. */
  datatype IngredientAmount = IngredientAmount(ingredient: Id, amount: int)

  /** The body of a recipe create or full update (the image is not modelled). */
  datatype RecipeWrite = RecipeWrite(ingredients: seq<IngredientAmount>, tags: seq<Id>, name: string, text: string, cookingTime: int)

  /** A field-level validation error; the response lists every field that failed. */
  datatype FieldError = AmountOutOfRange | UnknownIngredient | UnknownTag | CookingTimeOutOfRange

  /** Every submitted ingredient names a stored ingredient with an amount in range. */
  predicate ValidItems(items: seq<IngredientAmount>, known: set<Id>)
  {
    forall i :: 0 <= i < |items| ==> InRange(items[i].amount) && items[i].ingredient in known
  }

  /** The errors of the nested ingredient serializer, item by item. */
  function ItemErrors(items: seq<IngredientAmount>, known: set<Id>): (r: set<FieldError>)
    ensures r <= {AmountOutOfRange, UnknownIngredient}
    ensures AmountOutOfRange in r <==> exists i :: 0 <= i < |items| && !InRange(items[i].amount)
    ensures UnknownIngredient in r <==> exists i :: 0 <= i < |items| && items[i].ingredient !in known
  {
    if items == [] then {}
    else
      var head := items[0];
      var rest := ItemErrors(items[1..], known);
      assert forall i :: 0 < i < |items| ==> items[i] == items[1..][i - 1];
      assert forall i :: 0 <= i < |items| - 1 ==> items[1..][i] == items[i + 1];
      (if InRange(head.amount) then {} else {AmountOutOfRange})
      + (if head.ingredient in known then {} else {UnknownIngredient})
      + rest
  }

  /** A write passes validation: amounts, ingredient ids, tag ids and cooking time. */
  predicate ValidWrite(w: RecipeWrite, ingredientIds: set<Id>, tagIds: set<Id>)
  {
    && ValidItems(w.ingredients, ingredientIds)
    && (forall t :: t in w.tags ==> t in tagIds)
    && InRange(w.cookingTime)
  }

  /** All validation errors of a recipe write; it is accepted exactly when there are none. */
  function WriteErrors(w: RecipeWrite, ingredientIds: set<Id>, tagIds: set<Id>): (r: set<FieldError>)
    ensures r == {} <==> ValidWrite(w, ingredientIds, tagIds)
    ensures CookingTimeOutOfRange in r <==> !InRange(w.cookingTime)
    ensures AmountOutOfRange in r <==> exists i :: 0 <= i < |w.ingredients| && !InRange(w.ingredients[i].amount)
  {
    var items := ItemErrors(w.ingredients, ingredientIds);
    var tags := if forall t :: t in w.tags ==> t in tagIds then {} else {UnknownTag};
    var time := if InRange(w.cookingTime) then {} else {CookingTimeOutOfRange};
    assert items == {} <==> ValidItems(w.ingredients, ingredientIds);
    items + tags + time
  }

  /** The submission a list of rows represents: each row's `(ingredient, amount)`. */
  function ItemsOf(rows: seq<RecipeIngredient>): seq<IngredientAmount>
  {
    seq(|rows|, i requires 0 <= i < |rows| => IngredientAmount(rows[i].ingredient, rows[i].amount))
  }

  /**
   The loop of `update_ingredients`: one unsaved row per submitted item, in
   submission order and without merging repeated ingredients.
   */
  method BuildRows(recipe: Id, items: seq<IngredientAmount>) returns (rows: seq<RecipeIngredient>)
    requires forall i :: 0 <= i < |items| ==> InRange(items[i].amount)
    ensures ItemsOf(rows) == items
    ensures forall row :: row in rows ==> row.recipe == recipe
  {
    rows := [];
    for i := 0 to |items|
      invariant ItemsOf(rows) == items[..i]
      invariant forall row :: row in rows ==> row.recipe == recipe
    {
      rows := rows + [RecipeIngredient(recipe, items[i].ingredient, items[i].amount)];
    }
    assert items[..|items|] == items;
  }

  /** `RecipeIngredient.objects.filter(recipe=recipe)`, in table order: the recipe's rows, each as often as stored. */
  function RowsOf(rows: seq<RecipeIngredient>, recipe: Id): (r: seq<RecipeIngredient>)
    ensures forall ri {:trigger multiset(r)[ri]} :: multiset(r)[ri] == if ri.recipe == recipe then multiset(rows)[ri] else 0
    ensures forall ri :: ri in r <==> ri in rows && ri.recipe == recipe
  {
    var keep := (ri: RecipeIngredient) => ri.recipe == recipe;
    forall ri ensures multiset(Filter(rows, keep))[ri] == if ri.recipe == recipe then multiset(rows)[ri] else 0 {
      FilterCount(rows, keep, ri);
    }
    Filter(rows, keep)
  }

  /** The table after `RecipeIngredient.objects.filter(recipe=recipe).delete()`: every other recipe's rows, each as often as before. */
  function RowsNotOf(rows: seq<RecipeIngredient>, recipe: Id): (r: seq<RecipeIngredient>)
    ensures forall ri {:trigger multiset(r)[ri]} :: multiset(r)[ri] == if ri.recipe == recipe then 0 else multiset(rows)[ri]
    ensures forall ri :: ri in r <==> ri in rows && ri.recipe != recipe
  {
    var keep := (ri: RecipeIngredient) => ri.recipe != recipe;
    forall ri ensures multiset(Filter(rows, keep))[ri] == if ri.recipe == recipe then 0 else multiset(rows)[ri] {
      FilterCount(rows, keep, ri);
    }
    Filter(rows, keep)
  }

  /** Deleting the rows of a recipe that has none leaves the table as it was. */
  lemma RowsNotOfNone(table: seq<RecipeIngredient>, recipe: Id)
    requires forall ri :: ri in table ==> ri.recipe != recipe
    ensures RowsNotOf(table, recipe) == table
  {
    FilterAll(table, (ri: RecipeIngredient) => ri.recipe != recipe);
  }

  /**
   Delete-then-bulk-insert replaces one recipe's rows and no other: afterwards
   the recipe's rows are exactly the inserted ones, and every other recipe
   has the rows it had.
   */
  lemma {:induction false} ReplaceRows(table: seq<RecipeIngredient>, recipe: Id, inserted: seq<RecipeIngredient>)
    requires forall row :: row in inserted ==> row.recipe == recipe
    ensures RowsOf(RowsNotOf(table, recipe) + inserted, recipe) == inserted
    ensures RowsNotOf(RowsNotOf(table, recipe) + inserted, recipe) == RowsNotOf(table, recipe)
    ensures forall other :: other != recipe ==> RowsOf(RowsNotOf(table, recipe) + inserted, other) == RowsOf(table, other)
  {
    var kept := RowsNotOf(table, recipe);
    var isThis := (ri: RecipeIngredient) => ri.recipe == recipe;
    var notThis := (ri: RecipeIngredient) => ri.recipe != recipe;
    FilterConcat(kept, inserted, isThis);
    FilterConcat(kept, inserted, notThis);
    FilterNone(kept, isThis);
    FilterAll(inserted, isThis);
    FilterAll(kept, notThis);
    FilterNone(inserted, notThis);
    forall other | other != recipe
      ensures RowsOf(kept + inserted, other) == RowsOf(table, other)
    {
      var isOther := (ri: RecipeIngredient) => ri.recipe == other;
      FilterConcat(kept, inserted, isOther);
      FilterNone(inserted, isOther);
      FilterFilter(table, notThis, isOther, isOther);
    }
  }

  /** `get_is_favorited`: false for an anonymous caller, else whether the caller favorited the recipe. */
  function IsFavorited(favorites: seq<Favorite>, caller: Caller, recipe: Id): (r: bool)
    ensures caller.Anonymous? ==> !r
    ensures caller.Authenticated? ==> (r <==> Favorite(caller.id, recipe) in favorites)
  {
    match caller
    case Anonymous => false
    case Authenticated(u) => Favorite(u, recipe) in favorites
  }

  /** `get_is_in_shopping_cart`: false for an anonymous caller, else whether the recipe is in the caller's cart. */
  function IsInShoppingCart(carts: seq<CartEntry>, caller: Caller, recipe: Id): (r: bool)
    ensures caller.Anonymous? ==> !r
    ensures caller.Authenticated? ==> (r <==> CartEntry(caller.id, recipe) in carts)
  {
    match caller
    case Anonymous => false
    case Authenticated(u) => CartEntry(u, recipe) in carts
  }

  /** The user profile's `get_is_subscribed`: false for an anonymous caller, else whether the caller follows `user`. */
  function IsSubscribed(follows: seq<Follow>, caller: Caller, user: Id): (r: bool)
    ensures caller.Anonymous? ==> !r
    ensures caller.Authenticated? ==> (r <==> Follow(caller.id, user) in follows)
  {
    match caller
    case Anonymous => false
    case Authenticated(u) => Follow(u, user) in follows
  }

  /**
   The context a read shape is built with: the view's request (and so its
   caller), or none at all when the serializer is constructed without
   `context=`, in which case `self.context.get('request')` is `None`.
   */
  datatype SerializerContext = NoRequest | WithRequest(caller: Caller)

  /** The caller-relative fields of a recipe's representation: the author's `is_subscribed`, `is_favorited`, `is_in_shopping_cart`. */
  datatype RecipeFlags = RecipeFlags(authorIsSubscribed: bool, isFavorited: bool, isInShoppingCart: bool)

  /**
   Rendering `RecipeSerializer(recipe).data`: each of the three methods reads
   `request.user`, so without a request the rendering raises (`None` has no
   `user`), which is `None` here; with one, the fields are the caller's view.
   */
  function RecipeRepresentation(ctx: SerializerContext, x: Recipe, follows: seq<Follow>, favorites: seq<Favorite>,
                                carts: seq<CartEntry>): (r: Option<RecipeFlags>)
    ensures r.None? <==> ctx.NoRequest?
    ensures ctx.WithRequest? && ctx.caller.Anonymous? ==> r == Some(RecipeFlags(false, false, false))
    ensures ctx.WithRequest? && ctx.caller.Authenticated? ==>
      r == Some(RecipeFlags(Follow(ctx.caller.id, x.author) in follows, Favorite(ctx.caller.id, x.id) in favorites,
                            CartEntry(ctx.caller.id, x.id) in carts))
  {
    match ctx
    case NoRequest => None
    case WithRequest(caller) =>
      Some(RecipeFlags(IsSubscribed(follows, caller, x.author), IsFavorited(favorites, caller, x.id),
                       IsInShoppingCart(carts, caller, x.id)))
  }

  /** With the self-follow check constraint in force, nobody is shown as subscribed to themselves. */
  lemma NotSubscribedToSelf(follows: seq<Follow>, user: Id)
    requires NoSelfFollow(follows)
    ensures !IsSubscribed(follows, Authenticated(user), user)
  {
  }

  /**
   The follow shape's `get_is_subscribed`, asked of a stored subscription: the
   follower is a stored user (always authenticated), and the row itself
   answers the existence query, so it is always true.
   */
  function FollowIsSubscribed(follows: seq<Follow>, f: Follow): (r: bool)
    ensures f in follows ==> r
  {
    Follow(f.user, f.author) in follows
  }

  /** `get_recipes_count`: how many recipes the followed author has. */
  function RecipesCount(recipes: seq<Recipe>, author: Id): (r: nat)
    ensures r <= |recipes|
    ensures r == 0 <==> forall x :: x in recipes ==> x.author != author
  {
    var mine := Filter(recipes, (x: Recipe) => x.author == author);
    assert mine != [] ==> mine[0] in mine;
    |mine|
  }

  /** Publishing a recipe raises its author's count by one and leaves every other author's count alone. */
  lemma RecipesCountAppend(recipes: seq<Recipe>, x: Recipe, author: Id)
    ensures RecipesCount(recipes + [x], author) == RecipesCount(recipes, author) + (if x.author == author then 1 else 0)
  {
    FilterConcat(recipes, [x], (y: Recipe) => y.author == author);
  }
}

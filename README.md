# GroceryAssistant backend core in Dafny

This project models the rules of the GroceryAssistant recipe backend (a
Django REST service) over an abstract relational store and proves
properties of them. Users publish recipes with tags and ingredient
quantities. They can favorite recipes, put recipes in a shopping cart,
follow other authors, and download one aggregated shopping list for their
cart.

The model has seven modules:

- `Seqs` (`seqs.dfy`): sequence helpers the rest of the model relies on.
  - `Filter` is an order-preserving `.filter(...)`.
  - `Weighted` models an inner join without `DISTINCT`: each row is repeated once per matching partner row.
  - `Distinct` models SQL `DISTINCT`.
  - `SortDescBy` models a descending `Meta.ordering`.
- `Users` (`users_models.dfy`): users, the request's caller, and `Follow` with its unique and check constraints.
- `Recipes` (`recipes_models.dfy`): tags, ingredients, recipes, recipe-ingredient rows, cart rows, favorites, and the field constraints and orderings.
- `Serializers` (`serializers.dfy`): three groups.
  - The range checks of a recipe write.
  - The ingredient-row replacement of `update_ingredients`.
  - The caller-relative computed fields: `is_favorited`, `is_in_shopping_cart`, both `is_subscribed`, and `recipes_count`.
- `Filters` (`filters.dfy`): the recipe list filters, by tag slug, author, favorited and in-cart.
- `ShoppingList` (`shopping_list.dfy`): the shopping-list download. The cart is joined to the ingredient rows, grouped by (name, unit) and summed, and the loop renders the text.
- `Store` (`store.dfy`): a class with one `seq` field per table.
  - Its methods are the endpoints that change state: the favorite, cart and follow toggles, recipe create, update and delete, and the foreign-key cascades.
  - Each endpoint returns a status code. Every method keeps the store consistent (`Valid`). Consistency means unique keys, the follow constraints and foreign keys that point at stored rows. It also includes `cooking_time >= 1`. That bound is a model validator, not a database constraint (recipes/models.py:50-54); it holds because the serializer accepts only cooking times in [1, 32000].

The model follows the code as written, including these behaviours a client might not expect:

- `DELETE /recipes/{id}/favorite/` deletes every favorite of the caller, not only that recipe's.
- The cart POST has no duplicate check, so a cart may hold a recipe twice. The cart DELETE then fails with a server error, because `get_object_or_404` raises when it finds more than one row.
- The favorited and in-cart filters join without `DISTINCT`. A recipe in the cart twice is listed twice.
- Deleting a subscription never answers "not found" for a missing row. Only an unknown user id gives 404.
- A favorite POST when two rows already exist fails with a server error, because `get_or_create` raises.
- The cart POST, recipe create and recipe update write first and then answer with a server error. Their response serializer is built without the request (see "## Findings").

Requests are not atomic: the project's database settings are not part of this model, and the model assumes Django's default (`ATOMIC_REQUESTS` off). A write made before a server error therefore stays in the store.

## Model

| member | source | states |
|---|---|---|
| Users.UserById | backend/api/views.py:174-176 | A user is found exactly when one has that id; the user found is stored and has that id (404 otherwise). |
| Users.FollowChecksMatchConstraints | backend/api/views.py:185-190 | On a follow table meeting both constraints, the self-follow and already-following checks pass exactly when adding (caller, author) keeps `unique_followers` and `follow_user_following_check` (users/models.py:62-70). |
| Users.CheckFollow | backend/api/views.py:185-190 | The subscribe pre-checks in source order: self-follow is refused first, then an existing (caller, author) row; neither refuses exactly when the caller is not the author and does not already follow the author. |
| Users.FollowsWithoutUser | backend/users/models.py:44-56 | Deleting a user keeps exactly the follow rows in which they are neither follower nor author, and the table still meets both follow constraints. |
| Users.OrderedFollows | backend/users/models.py:61 | Subscriptions are a permutation of the rows ordered by non-increasing author id. |
| Recipes.RecipeById | backend/api/views.py:57 | A recipe is found exactly when one has that primary key; the one found is stored with that key. |
| Recipes.IngredientById | backend/api/views.py:114-118 | An ingredient row joins exactly when an ingredient has that key; the joined ingredient is stored with that key. |
| Recipes.NewestFirst | backend/recipes/models.py:90 | The recipe listing is a permutation of the table with non-increasing `pub`. |
| Recipes.RecipesUniqueNoDup | backend/recipes/models.py:35 | A unique primary key rules out a repeated recipe row (so a tags-only query's precondition holds of the stored table). |
| Serializers.ItemErrors | backend/api/serializers.py:119-125 | The nested ingredient serializer reports an amount error exactly when some amount is outside [1, 32000]. It reports an unknown-ingredient error exactly when some id names no ingredient. |
| Serializers.WriteErrors | backend/api/serializers.py:132-140 | A recipe write is accepted exactly when every amount and the cooking time lie in [1, 32000] and every ingredient and tag id exists. The cooking-time error is reported exactly when the cooking time is out of range. |
| Serializers.BuildRows | backend/api/serializers.py:153-161 | The loop builds one row per submitted item, in submission order, with the item's ingredient and amount, all for the given recipe; repeated ingredients are not merged. |
| Serializers.ReplaceRows | backend/api/serializers.py:163-164 | After delete-then-bulk-insert the recipe's rows are exactly the inserted rows, the rows of other recipes are exactly those before, and every other recipe's own rows are unchanged. |
| Serializers.RowsOf | backend/api/serializers.py:163 | The recipe's rows are exactly the stored rows for it, each with its stored count. |
| Serializers.RowsNotOf | backend/api/serializers.py:163 | After the delete, exactly the other recipes' rows remain, each with its count. |
| Serializers.IsFavorited | backend/api/serializers.py:90-96 | False for an anonymous caller; otherwise true exactly when a (caller, recipe) favorite row exists. |
| Serializers.IsInShoppingCart | backend/api/serializers.py:98-103 | False for an anonymous caller; otherwise true exactly when a (caller, recipe) cart row exists. |
| Serializers.IsSubscribed | backend/api/serializers.py:29-33 | False for an anonymous caller; otherwise true exactly when the caller follows the user. |
| Serializers.RecipeRepresentation | backend/api/serializers.py:90-103 | Rendering the recipe shape raises exactly when its context has no request. With a request, the three flags are false for an anonymous caller and are otherwise the caller's follow, favorite and cart rows. |
| Serializers.NotSubscribedToSelf | backend/users/models.py:66-69 | Under the self-follow check constraint nobody is shown as subscribed to themselves. |
| Serializers.FollowIsSubscribed | backend/api/serializers.py:230-232 | For a stored subscription the follow-level `is_subscribed` is always true (its follower is a stored, hence authenticated, user). |
| Serializers.RecipesCount | backend/api/serializers.py:227-228 | The count is at most the table size, and it is zero exactly when the author has no recipe. |
| Serializers.RecipesCountAppend | backend/api/serializers.py:227-228 | Adding a recipe raises its author's count by one and leaves every other author's count unchanged. |
| Filters.FilterIsFavorited | backend/api/filters.py:34-37 | Unchanged when the value is false or the caller anonymous. Otherwise it keeps exactly the recipes the caller favorited, each listed once per matching favorite row (the stored count times the caller's rows for it). A newest-first listing stays newest first. |
| Filters.FilterIsInShoppingCart | backend/api/filters.py:39-44 | Unchanged when the value is false or the caller anonymous. Otherwise it keeps exactly the recipes in the caller's cart, each listed once per cart row of the caller naming it (the stored count times those rows). A newest-first listing stays newest first. |
| Filters.FavoritedFilterIsSubsequence | backend/api/filters.py:34-37 | With at most one favorite row per pair the favorited filter only removes recipes and keeps their order. |
| Filters.CartFilterIsSubsequence | backend/api/filters.py:39-44 | With no repeated cart row the cart filter only removes recipes and keeps their order. |
| Filters.CartFilterRepeatsRecipe | backend/api/filters.py:39-44 | A recipe in the caller's cart twice is listed twice by the cart filter (the join has no `DISTINCT`). |
| Filters.FilterTags | backend/api/filters.py:19-23 | No slugs: unchanged. An unknown slug: 400. Otherwise exactly the recipes carrying at least one requested slug, each as often as listed, with newest-first order kept. |
| Filters.FilterAuthor | backend/api/filters.py:10-12 | No author: unchanged. An unknown user id: 400. Otherwise exactly the recipes by that author, each as often as listed, with newest-first order kept. |
| Filters.FilterRecipes | backend/api/filters.py:9-32 | 400 exactly when a tag slug or the author is unknown. Otherwise exactly the recipes matching every requested filter, in the listing's newest-first order. With tags each appears once (`DISTINCT`). Without tags each appears its listed count times `JoinRows`, the number of favorite and cart rows the joins match. |
| Filters.OnlyFavoritedQuery | backend/api/filters.py:34-37 | With no parameters the listing is returned as is. With only `is_favorited=true` it is exactly the caller's favorites, in listing order. |
| Filters.OnlyTagsQuery | backend/api/filters.py:19-23 | A tags-only query over a listing without repeats gives the recipes carrying a requested slug, each once, in listing order. |
| ShoppingList.GroupedSums | backend/api/views.py:114-118 | Each (name, unit) total of the grouping is the sum of that pair's amounts over the joined rows (0 for a pair with no rows). |
| ShoppingList.CartLines | backend/api/views.py:114-116 | Every joined line is an ingredient row of a recipe in the caller's cart, carrying its ingredient's name and unit and the row's amount. |
| ShoppingList.CartLineKeys | backend/api/views.py:114-118 | With unique ingredient keys, the (name, unit) pairs of the join are exactly those of ingredient rows whose recipe is in the caller's cart. |
| ShoppingList.Grouped | backend/api/views.py:116-118 | The grouping has distinct (name, unit) keys, exactly the pairs among the joined lines. |
| ShoppingList.GroupedTotals | backend/api/views.py:114-118 | Each grouped row's `amount_sum` is the sum of the amounts of the joined rows with its name and unit, and no two rows share a (name, unit). |
| ShoppingList.CartLinesSum | backend/api/views.py:114-118 | A pair's sum over the joined rows is the sum, over that pair's ingredient rows, of the amount times the caller's cart entries for the row's recipe. |
| ShoppingList.EmptyCartGivesHeader | backend/api/views.py:113-125 | A caller with an empty cart downloads the header line alone. |
| ShoppingList.NatToString | backend/api/views.py:121-122 | An amount is rendered as at least one decimal digit with no leading zero. |
| ShoppingList.NatToStringRoundTrip | backend/api/views.py:121-122 | Reading the rendered digits back gives the amount. |
| ShoppingList.JoinedSnoc | backend/api/views.py:119-125 | Adding one more entry after a non-empty list adds `", "` and then the entry. |
| ShoppingList.EntryLineBreaks | backend/api/views.py:120-123 | An entry holds its opening line break and no other besides those in the name and unit. |
| ShoppingList.JoinedLineBreaks | backend/api/views.py:119-125 | With no line break in any name or unit, the joined entries hold exactly one line break per group. |
| ShoppingList.RenderShoppingList | backend/api/views.py:119-125 | The loop's text is the header followed by each entry (`"\n" + name + " - " + sum + " " + unit`), with `", "` between consecutive entries and none after the last. |
| ShoppingList.OneLinePerGroup | backend/api/views.py:119-125 | When no name or unit contains a line break, the text holds exactly one line break per group. |
| Store.Unfavorited | backend/api/views.py:74-76 | Every favorite row of the caller goes, whatever its recipe; every other user's rows keep their count; no repeat appears. |
| Store.WithoutEntry | backend/api/views.py:102-103 | Deleting the one cart row found removes exactly one occurrence of it. |
| Store.Unfollowed | backend/api/views.py:195-196 | Exactly the (caller, author) rows go, and both follow constraints still hold. |
| Store.Edited | backend/api/serializers.py:172-176 | A full update sets name, text, cooking time and tags from the write and keeps id, author and publication time. |
| Store.Saved | backend/api/serializers.py:174 | Saving in place keeps the stored keys, stores the edited recipe exactly when its key was stored, keeps every other row, and keeps keys unique. |
| Store.RecipesWithout | backend/recipes/models.py:121-126 | Deleting a recipe removes exactly it, keeps every other row's count, and leaves the old ids minus that one. Unique keys stay unique. |
| Store.CartsWithoutRecipe | backend/recipes/models.py:157-163 | The cart rows of a deleted recipe cascade away; every other cart row keeps its count, repeats included. |
| Store.FavoritesWithoutRecipe | backend/recipes/models.py:177-181 | The favorite rows of a deleted recipe cascade away; every other row keeps its count; no repeat appears. |
| Store.UsersWithout | backend/users/models.py:6-31 | Deleting a user removes exactly that account and its id; every other account keeps its count; id, username and email stay unique. |
| Store.IngredientsWithout | backend/recipes/models.py:96-112 | Deleting an ingredient removes exactly that ingredient; every other keeps its count; keys stay unique. |
| Store.RecipesNotBy | backend/recipes/models.py:61-66 | Deleting a user removes exactly their recipes; every other recipe keeps its count; unique keys stay unique. |
| Store.RowsOfRecipes | backend/recipes/models.py:121-126 | Exactly the ingredient rows of surviving recipes survive, each with its count, repeats included. |
| Store.CartsOfRecipes | backend/recipes/models.py:157-163 | Exactly the cart rows of surviving recipes survive, each with its count. |
| Store.FavoritesOfRecipes | backend/recipes/models.py:177-181 | Exactly the favorite rows of surviving recipes survive, each with its count. |
| Store.CartsNotOf | backend/recipes/models.py:150-155 | Deleting a user removes exactly their cart rows; every other row keeps its count. |
| Store.RowsWithoutIngredient | backend/recipes/models.py:128-133 | Deleting an ingredient removes exactly the recipe rows that use it; every other row keeps its count. |
| Store.DeleteRecipeConsistent | backend/recipes/models.py:121-126 | Deleting a recipe with its ingredient, cart and favorite rows keeps every key unique and every foreign key pointing at a stored row. |
| Store.DeleteRecipesByConsistent | backend/recipes/models.py:61-66 | Deleting an author's recipes with their dependent rows keeps the store consistent. |
| Store.DeleteAccountConsistent | backend/users/models.py:44-56 | Deleting a user with their cart rows, favorites and subscriptions keeps the store consistent. |
| Store.DeleteIngredientConsistent | backend/recipes/models.py:128-133 | Deleting an ingredient with the recipe rows using it keeps the store consistent. |
| Store.RecipeResponse | backend/api/views.py:96-100 | After a write, an endpoint answering with the recipe shape gives its success status when the serializer has a request, and 500 when it has none. |
| Store.IntendedCartResponse | backend/api/views.py:94-100 | Built with the request, the cart POST would answer 201 and show the recipe as in the caller's cart. |
| Store.IntendedCreateResponse | backend/api/serializers.py:178-179 | Built with the request, a create would answer 201 and show the new recipe as neither favorited nor in the cart, and its author as not subscribed to themselves. |
| Store.Store.FavoritePost | backend/api/views.py:56-70 | 404 for an unknown recipe. With no (caller, recipe) row, exactly that row is added and the answer is 201. With one row it is 400 and with two or more it is 500, both with no change. Duplicate-free favorites stay duplicate-free. |
| Store.Store.FavoriteDelete | backend/api/views.py:71-84 | 404 for an unknown recipe. If the caller has any favorite, all of the caller's favorites go and the answer is 204. Otherwise it is 400 with no change. |
| Store.Store.CartPost | backend/api/views.py:90-100 | 404 for an unknown recipe. Otherwise one more (caller, recipe) row is appended, even if one exists, and the answer is 500: the response serializer has no request (see Findings). |
| Store.Store.CartDelete | backend/api/views.py:102-104 | 404 for an unknown recipe or no row. With exactly one row it is removed and the answer is 204. With two or more rows it is 500 with no change. |
| Store.Store.FollowCreate | backend/api/views.py:183-193 | 404 for an unknown user. 400 with no change for oneself or for an author already followed. Otherwise exactly (caller, author) is appended and the answer is 201. The follow constraints still hold. |
| Store.Store.FollowDestroy | backend/api/views.py:195-196 | 404 only for an unknown user; otherwise every (caller, author) row goes and 204, also when there was none. |
| Store.Store.UpdateIngredients | backend/api/serializers.py:152-164 | The table becomes the other recipes' rows followed by the recipe's new rows. These are exactly the submission, one row per item in order. Every other recipe keeps its rows. |
| Store.Store.CreateRecipe | backend/api/serializers.py:166-179 | An invalid write is a 400 with nothing written. Otherwise a recipe by the caller is appended, with a fresh id, the write's fields and the given time. The new recipe's rows are exactly the submission and are the only rows added. The answer is then 500, because `to_representation` has no request (see Findings). |
| Store.Store.UpdateRecipe | backend/api/serializers.py:172-179 | 404 or 400 with no change. Otherwise the recipe is saved in place with the write's fields, keeping id, author and time. Its rows become exactly the submission and other recipes keep theirs. The answer is then 500 (see Findings). |
| Store.Store.DeleteRecipe | backend/recipes/models.py:121-126 | 404 for an unknown recipe; otherwise the recipe and its ingredient, cart and favorite rows go (cascade) and 204. |
| Store.Store.DeleteUser | backend/recipes/models.py:61-66 | Deleting a user cascades to their recipes and those recipes' rows, their own cart rows, favorites and subscriptions; nothing else changes. |
| Store.Store.DeleteRecipesBy | backend/recipes/models.py:61-66 | The author's recipes go, and with them exactly the ingredient, cart and favorite rows of recipes that no longer exist; users, tags, ingredients and follows are unchanged. |
| Store.Store.DeleteAccount | backend/users/models.py:44-56 | With no recipe left by them, the user's account, cart rows, favorites and subscriptions (as follower or author) go; recipes and their rows are unchanged. |
| Store.Store.DeleteIngredient | backend/recipes/models.py:128-133 | The ingredient table loses exactly that ingredient, and the recipe rows become `RowsWithoutIngredient`: those using it go and every other row keeps its count. |
| Store.Store.DownloadShoppingCart | backend/api/views.py:112-125 | The download is the header followed by the rendered groups of the caller's joined cart rows. The groups have distinct (name, unit) keys. In a consistent store they are exactly the pairs of `CartKeys`: one per ingredient of an ingredient row whose recipe is in the caller's cart. |
| Store.Store.ListRecipes | backend/api/views.py:38-42 | 400 exactly when a tag slug or the author is unknown. Otherwise exactly the stored recipes matching every filter, newest first. With tags each appears once. Without tags, in a consistent store, each appears once per row of the boolean joins (`JoinRows`). |
| Store.Store.FollowRetrieve | backend/api/views.py:166-174 | `GET /users/{id}/subscribe/` (the `retrieve` of the view): 404 exactly for an unknown user, and 500 for every stored user, because the follow serializer reads `obj.user` of a user. |
| Store.Store.Subscriptions | backend/api/views.py:147-152 | The `users/subscriptions/` list route: exactly the caller's subscriptions, each as often as stored, by non-increasing author id. |

## Left out

- Response bodies, headers (`Content-Type`, `Content-Disposition`), pagination and the exact JSON shapes: only status codes and store effects are modelled.
- Authentication and permission classes: the caller is a parameter (`Caller`, or a stored user id for endpoints that need one). The recipe view set declares no permission class, so anyone may update or delete any recipe in the model.
- Image upload and Base64 decoding, and the `image` field.
- Serializers.WriteErrors: it does not report the serializer's checks on `name` and `text`. The serializer derives them from the model fields, and they answer 400 before anything is written: a blank `name` or one over 200 characters, and a blank `text`. The model accepts such writes. Blankness in DRF is judged after trimming whitespace, which needs a model of Unicode whitespace.
- Length limits of the tag, ingredient and user fields: those tables are written only outside the modelled endpoints.
- The integer width of `PositiveIntegerField` columns: integers are unbounded. Every written amount and cooking time is at most 32000 anyway.
- Ingredient ordering by name (`Meta.ordering = ['name']`) and the ingredient name prefix search: both depend on the database's string collation.
- ShoppingList.Grouped: the grouped query names no order. The model lists groups in order of first appearance. The group, key and total properties hold for that order, and the renderer's contract holds for any order.
- The follow-level `is_subscribed` branch that returns `None` for an unauthenticated follower: it cannot be reached, because a stored follower is always authenticated.
- `FollowSerializer.get_recipes` and its `recipes_limit` truncation: dead code, because `recipes` is declared as a nested serializer field.
- The `subscriptions` action of `FollowViewSet` (backend/api/views.py:157-165), routed at `users/subscriptions/subscriptions/`: its `select_related('following')` names no forward relation of `Follow`, so the query raises. The modelled list route is `users/subscriptions/` (backend/api/urls.py:10).
- Partial updates (`PATCH`) without `ingredients`: `validated_data.pop('ingredients')` then raises. The model covers full updates only.
- The shopping-cart action, recipe update and recipe delete all find their recipe with `self.get_object()`, which applies the list filters to the query string first. The model finds the recipe by id alone and ignores query parameters.
- Creating users (registration is handled by a library), tags and ingredients (admin and import), and deleting tags (which only removes many-to-many links).
- Users' own views and serializers (commented out), admin registration, URL routing and the JSON import command.
- Concurrency and the atomicity of delete-then-bulk-insert: each request is one sequential step.
- The clock: the creation time of a recipe is a parameter.

## Findings

| source | as written | input that shows it | evidently intended | confidence | as-written member | corrected member |
|---|---|---|---|---|---|---|
| backend/api/views.py:96 | The cart POST builds `RecipeSerializer(recipe)` without `context`. Rendering `.data` reads `request.user` in `get_is_subscribed`, `get_is_favorited` and `get_is_in_shopping_cart` (backend/api/serializers.py:30-31, 92-93, 99-100) with `request` None, which raises, so the answer is 500 after the cart row is written. | `POST /recipes/{id}/shopping_cart/` for any stored recipe | `RecipeSerializer(recipe, context={'request': request})`, answering 201 with `is_in_shopping_cart` true, as the favorite POST passes its context | high; not executed | Store.Store.CartPost | Store.IntendedCartResponse |
| backend/api/serializers.py:179 | `to_representation` builds `RecipeSerializer(instance)` without the serializer's own context, so the create and update responses raise in the same way after the recipe and its rows are saved: 500. | any valid `POST /recipes/` or `PUT /recipes/{id}/` | `RecipeSerializer(instance, context=self.context)`, answering 201 for a create and 200 for an update | high; not executed | Store.Store.CreateRecipe | Store.IntendedCreateResponse |

/** backend/api/filters.py: the ingredient name filter, the three boolean
    filter methods of RecipeFilter and the default recipe ordering. Each takes
    a queryset (a sequence of rows) and returns a new one. */
module Filters {
  import opened Outcomes
  import opened Seqs
  import opened Text
  import opened UserModels
  import opened RecipeModels

  // ---------------------------------------------------------------------
  // IngredientsFilter

  /** name__istartswith=query. */
  function FilterIngredientsByName(ingredients: seq<Ingredient>, query: string): seq<Ingredient> {
    Filter(ingredients, (i: Ingredient) => IStartsWith(i.name, query))
  }

  /** The filter keeps exactly the ingredients whose name starts with the
      query, ignoring (ASCII) case, in their order; the query's own case does
      not matter, and an empty query keeps everything. */
  lemma IngredientNameFilterSpec(ingredients: seq<Ingredient>, query: string)
    ensures var r := FilterIngredientsByName(ingredients, query);
      && (forall k :: 0 <= k < |r| ==> r[k] in ingredients && Lower(query) <= Lower(r[k].name))
      && (forall k :: 0 <= k < |ingredients| && Lower(query) <= Lower(ingredients[k].name) ==> ingredients[k] in r)
      && FilterIngredientsByName(ingredients, Lower(query)) == r
      && (forall n :: 0 <= n <= |ingredients| ==>
            r == FilterIngredientsByName(ingredients[..n], query) + FilterIngredientsByName(ingredients[n..], query))
    ensures FilterIngredientsByName(ingredients, "") == ingredients
  {
    forall n | 0 <= n <= |ingredients|
      ensures FilterIngredientsByName(ingredients, query) ==
              FilterIngredientsByName(ingredients[..n], query) + FilterIngredientsByName(ingredients[n..], query)
    {
      assert ingredients == ingredients[..n] + ingredients[n..];
      FilterAppend(ingredients[..n], ingredients[n..], (i: Ingredient) => IStartsWith(i.name, query));
    }
    LowerIdempotent(query);
    FilterAgree(ingredients, (i: Ingredient) => IStartsWith(i.name, Lower(query)), (i: Ingredient) => IStartsWith(i.name, query));
    forall k | 0 <= k < |ingredients| ensures IStartsWith(ingredients[k].name, "") {
      IStartsWithEmpty(ingredients[k].name);
    }
    FilterKeepsAll(ingredients, (i: Ingredient) => IStartsWith(i.name, ""));
  }

  // ---------------------------------------------------------------------
  // RecipeFilter methods

  /** The recipes of the queryset that `user` holds a pair with in `pairs`. */
  function PairedWith(recipes: seq<Recipe>, pairs: set<(UserId, RecipeId)>, user: UserId): seq<Recipe> {
    Filter(recipes, (r: Recipe) => (user, r.id) in pairs)
  }

  /** Whether the user has any row at all in the table (the .exists() check). */
  predicate HasAny(pairs: set<(UserId, RecipeId)>, user: UserId) {
    exists p :: p in pairs && p.0 == user
  }

  /** filter_is_favorited: `value` is not read. The requesting user is None
      when anonymous, and using them as a lookup value raises. */
  function FilterIsFavorited(recipes: seq<Recipe>, favorites: set<(UserId, RecipeId)>, user: Option<UserId>, value: bool)
    : Outcome<seq<Recipe>>
  {
    if user.None? then Fail(ServerError(AnonymousLookup))
    else if HasAny(favorites, user.value) then Ok(PairedWith(recipes, favorites, user.value))
    else Ok([])
  }

  /** filter_is_in_shopping_cart: the same over the cart table; `value` is not read. */
  function FilterIsInShoppingCart(recipes: seq<Recipe>, carts: set<(UserId, RecipeId)>, user: Option<UserId>, value: bool)
    : Outcome<seq<Recipe>>
  {
    if user.None? then Fail(ServerError(AnonymousLookup))
    else if HasAny(carts, user.value) then Ok(PairedWith(recipes, carts, user.value))
    else Ok([])
  }

  /** filter_is_subscribed: the recipes whose author is the requesting user. */
  function FilterIsSubscribed(recipes: seq<Recipe>, user: Option<UserId>, value: bool): Outcome<seq<Recipe>> {
    if user.None? then Fail(ServerError(AnonymousLookup))
    else Ok(Filter(recipes, (r: Recipe) => r.author == user.value))
  }

  /** Without any pair of the user the plain join is empty too, so the
      .exists() check does not change the result. */
  lemma {:induction false} ExistsCheckRedundant(recipes: seq<Recipe>, pairs: set<(UserId, RecipeId)>, user: UserId)
    ensures (if HasAny(pairs, user) then PairedWith(recipes, pairs, user) else []) == PairedWith(recipes, pairs, user)
  {
    if !HasAny(pairs, user) {
      forall k | 0 <= k < |recipes| ensures (user, recipes[k].id) !in pairs {
        var pair := (user, recipes[k].id);
        assert pair.0 == user;
      }
      FilterNone(recipes, (r: Recipe) => (user, r.id) in pairs);
    }
  }

  /** filter_is_favorited keeps exactly the queryset's recipes the user has
      favourited, whatever `value` is, and nothing when the user has no
      favourites; an anonymous request fails. */
  lemma FilterIsFavoritedSpec(recipes: seq<Recipe>, favorites: set<(UserId, RecipeId)>, user: Option<UserId>, value: bool)
    ensures FilterIsFavorited(recipes, favorites, user, value).Fail? <==> user.None?
    ensures user.None? ==> FilterIsFavorited(recipes, favorites, user, value) == Fail(ServerError(AnonymousLookup))
    ensures FilterIsFavorited(recipes, favorites, user, value) == FilterIsFavorited(recipes, favorites, user, !value)
    ensures user.Some? ==> var r := FilterIsFavorited(recipes, favorites, user, value).value;
      && r == PairedWith(recipes, favorites, user.value)
      && (forall k :: 0 <= k < |r| ==> r[k] in recipes && (user.value, r[k].id) in favorites)
      && (forall k :: 0 <= k < |recipes| && (user.value, recipes[k].id) in favorites ==> recipes[k] in r)
      && (!HasAny(favorites, user.value) ==> r == [])
  {
    if user.Some? {
      ExistsCheckRedundant(recipes, favorites, user.value);
    }
  }

  /** filter_is_in_shopping_cart: the same over the cart table. */
  lemma FilterIsInShoppingCartSpec(recipes: seq<Recipe>, carts: set<(UserId, RecipeId)>, user: Option<UserId>, value: bool)
    ensures FilterIsInShoppingCart(recipes, carts, user, value).Fail? <==> user.None?
    ensures user.None? ==> FilterIsInShoppingCart(recipes, carts, user, value) == Fail(ServerError(AnonymousLookup))
    ensures FilterIsInShoppingCart(recipes, carts, user, value) == FilterIsInShoppingCart(recipes, carts, user, !value)
    ensures user.Some? ==> var r := FilterIsInShoppingCart(recipes, carts, user, value).value;
      && r == PairedWith(recipes, carts, user.value)
      && (forall k :: 0 <= k < |r| ==> r[k] in recipes && (user.value, r[k].id) in carts)
      && (forall k :: 0 <= k < |recipes| && (user.value, recipes[k].id) in carts ==> recipes[k] in r)
      && (!HasAny(carts, user.value) ==> r == [])
  {
    if user.Some? {
      ExistsCheckRedundant(recipes, carts, user.value);
    }
  }

  /** filter_is_subscribed returns the user's own recipes, the same list as
      user.recipe, and never a recipe of somebody else; an anonymous request
      fails. */
  lemma FilterIsSubscribedSpec(recipes: seq<Recipe>, user: Option<UserId>, value: bool)
    ensures FilterIsSubscribed(recipes, user, value).Fail? <==> user.None?
    ensures user.None? ==> FilterIsSubscribed(recipes, user, value) == Fail(ServerError(AnonymousLookup))
    ensures user.Some? ==> var r := FilterIsSubscribed(recipes, user, value).value;
      && r == AuthorRecipes(recipes, user.value)
      && |r| == RecipesCount(recipes, user.value)
      && (forall k :: 0 <= k < |r| ==> r[k] in recipes && r[k].author == user.value)
  {
  }

  /** Every filter method that succeeds returns a sub-multiset of its queryset. */
  lemma FiltersNarrow(recipes: seq<Recipe>, favorites: set<(UserId, RecipeId)>, carts: set<(UserId, RecipeId)>,
                      user: Option<UserId>, value: bool)
    ensures var r := FilterIsFavorited(recipes, favorites, user, value); r.Ok? ==> multiset(r.value) <= multiset(recipes)
    ensures var r := FilterIsInShoppingCart(recipes, carts, user, value); r.Ok? ==> multiset(r.value) <= multiset(recipes)
    ensures var r := FilterIsSubscribed(recipes, user, value); r.Ok? ==> multiset(r.value) <= multiset(recipes)
  {
  }

  // ---------------------------------------------------------------------
  // RecipeOrderingFilter

  /** get_default_ordering: ['-id']. */
  predicate IdDescending(a: Recipe, b: Recipe) {
    a.id >= b.id
  }

  function DefaultOrdering(recipes: seq<Recipe>): seq<Recipe> {
    Sort(recipes, IdDescending)
  }

  /** The default ordering puts the newest recipe (highest id) first and
      every id at or above all later ones, and keeps every recipe. */
  lemma DefaultOrderingSpec(recipes: seq<Recipe>)
    ensures var r := DefaultOrdering(recipes);
      && multiset(r) == multiset(recipes)
      && (forall i, j :: 0 <= i < j < |r| ==> r[i].id >= r[j].id)
  {
    SortSorted(recipes, IdDescending);
    SortedPairwise(DefaultOrdering(recipes), IdDescending);
  }
}

/** The database behind the ORM, as one in-memory object. Every table is a
    field: the entity tables and the join table are sequences of rows in table
    order, the follow, favourite and cart tables are sets of pairs (a set holds
    each pair at most once, which is their unique_together constraint). */
module Store {
  import opened Outcomes
  import opened Seqs
  import opened UserModels
  import opened RecipeModels

  /** The two (user, recipe) tables that add_del_recipesview manages. */
  datatype Association = Favorite | Cart

  /** A snapshot of every table. */
  datatype Db = Db(
    users: seq<User>,
    tags: seq<Tag>,
    ingredients: seq<Ingredient>,
    recipes: seq<Recipe>,
    joinRows: seq<IngredientInRecipe>,
    follows: set<(UserId, UserId)>,
    favorites: set<(UserId, RecipeId)>,
    carts: set<(UserId, RecipeId)>,
    nextRecipeId: RecipeId)
  {
    /** The constraints the tables declare, plus what every handler keeps:
        the primary keys of users, tags, ingredients and recipes are unique,
        recipe ids are below the next auto-increment value, a join row points
        at an existing ingredient and at a recipe id already handed out, and
        nobody follows themselves. */
    ghost predicate Valid() {
      && UniqueUserIds(users)
      && UniqueTagIds(tags)
      && UniqueTagFields(tags)
      && UniqueIngredientIds(ingredients)
      && UniqueRecipeIds(recipes)
      && (forall i :: 0 <= i < |recipes| ==> recipes[i].id < nextRecipeId)
      && UniqueJoinRows(joinRows)
      && (forall i :: 0 <= i < |joinRows| ==> joinRows[i].recipe < nextRecipeId)
      && (forall i :: 0 <= i < |joinRows| ==> FindIngredient(ingredients, joinRows[i].ingredient).Some?)
      && (forall f :: f in follows ==> f.0 != f.1)
    }

    function Pairs(kind: Association): set<(UserId, RecipeId)> {
      if kind == Favorite then favorites else carts
    }

    function WithPairs(kind: Association, pairs: set<(UserId, RecipeId)>): (db: Db)
      ensures db.Pairs(kind) == pairs
    {
      if kind == Favorite then this.(favorites := pairs) else this.(carts := pairs)
    }
  }

  /** The tables after a handler ran, together with its answer. */
  datatype Step<T> = Step(db: Db, out: Outcome<T>)

  function FindUser(users: seq<User>, id: UserId): Option<User> {
    FindFirst(users, (u: User) => u.id == id)
  }

  function FindRecipe(recipes: seq<Recipe>, id: RecipeId): Option<Recipe> {
    FindFirst(recipes, (r: Recipe) => r.id == id)
  }

  function FindIngredient(ingredients: seq<Ingredient>, id: IngredientId): Option<Ingredient> {
    FindFirst(ingredients, (i: Ingredient) => i.id == id)
  }

  /** With unique ids, looking up the id of a row finds that row. */
  lemma FindRecipeAt(recipes: seq<Recipe>, k: nat)
    requires UniqueRecipeIds(recipes) && k < |recipes|
    ensures FindRecipe(recipes, recipes[k].id) == Some(recipes[k])
  {
    var found := FindRecipe(recipes, recipes[k].id);
    var j :| 0 <= j < |recipes| && recipes[j] == found.value;
  }

  /** The join rows of one recipe, in table order. */
  function RowsOf(rows: seq<IngredientInRecipe>, recipe: RecipeId): seq<IngredientInRecipe> {
    Filter(rows, (row: IngredientInRecipe) => row.recipe == recipe)
  }

  /** The join table after IngredientInRecipe.objects.filter(recipe_id=id).delete(). */
  function DeleteRowsOf(rows: seq<IngredientInRecipe>, recipe: RecipeId): seq<IngredientInRecipe> {
    Filter(rows, (row: IngredientInRecipe) => row.recipe != recipe)
  }

  /** Deleting a recipe's join rows leaves it none and leaves every other
      recipe's rows as they were. */
  lemma {:induction false} DeleteRowsOfSpec(rows: seq<IngredientInRecipe>, recipe: RecipeId, other: RecipeId)
    ensures RowsOf(DeleteRowsOf(rows, recipe), recipe) == []
    ensures other != recipe ==> RowsOf(DeleteRowsOf(rows, recipe), other) == RowsOf(rows, other)
  {
    if rows != [] {
      DeleteRowsOfSpec(rows[1..], recipe, other);
    }
  }

  /** Rows of one recipe in a concatenation come from each part in turn. */
  lemma {:induction false} RowsOfAppend(a: seq<IngredientInRecipe>, b: seq<IngredientInRecipe>, recipe: RecipeId)
    ensures RowsOf(a + b, recipe) == RowsOf(a, recipe) + RowsOf(b, recipe)
  {
    if a != [] {
      assert (a + b)[1..] == a[1..] + b;
      RowsOfAppend(a[1..], b, recipe);
    } else {
      assert a + b == b;
    }
  }

  /** A row in front of unique rows keeps them unique when it clashes with none of them. */
  lemma UniqueJoinRowsCons(x: IngredientInRecipe, d: seq<IngredientInRecipe>)
    requires UniqueJoinRows(d)
    requires forall j :: 0 <= j < |d| ==> x.ingredient != d[j].ingredient || x.recipe != d[j].recipe
    ensures UniqueJoinRows([x] + d)
  {
    var all := [x] + d;
    forall i, j | 0 <= i < j < |all|
      ensures all[i].ingredient != all[j].ingredient || all[i].recipe != all[j].recipe
    {
      assert all[j] == d[j - 1];
      if i > 0 {
        assert all[i] == d[i - 1];
      }
    }
  }

  /** Dropping rows keeps the (ingredient, recipe) constraint. */
  lemma {:induction false} DeleteRowsOfUnique(rows: seq<IngredientInRecipe>, recipe: RecipeId)
    requires UniqueJoinRows(rows)
    ensures UniqueJoinRows(DeleteRowsOf(rows, recipe))
  {
    if rows != [] {
      var t := rows[1..];
      assert UniqueJoinRows(t) by {
        forall i, j | 0 <= i < j < |t|
          ensures t[i].ingredient != t[j].ingredient || t[i].recipe != t[j].recipe
        {
          assert t[i] == rows[i + 1] && t[j] == rows[j + 1];
        }
      }
      DeleteRowsOfUnique(t, recipe);
      var d := DeleteRowsOf(t, recipe);
      if rows[0].recipe != recipe {
        assert DeleteRowsOf(rows, recipe) == [rows[0]] + d;
        forall j | 0 <= j < |d|
          ensures rows[0].ingredient != d[j].ingredient || rows[0].recipe != d[j].recipe
        {
          assert d[j] in t;
          var k :| 0 <= k < |t| && t[k] == d[j];
          assert rows[k + 1] == d[j];
        }
        UniqueJoinRowsCons(rows[0], d);
      } else {
        assert DeleteRowsOf(rows, recipe) == d;
      }
    }
  }

  /** The whole database as one object whose fields the handlers update in place. */
  class Store {
    var users: seq<User>
    var tags: seq<Tag>
    var ingredients: seq<Ingredient>
    var recipes: seq<Recipe>
    var joinRows: seq<IngredientInRecipe>
    var follows: set<(UserId, UserId)>
    var favorites: set<(UserId, RecipeId)>
    var carts: set<(UserId, RecipeId)>
    var nextRecipeId: RecipeId

    function State(): Db
      reads this
    {
      Db(users, tags, ingredients, recipes, joinRows, follows, favorites, carts, nextRecipeId)
    }

    ghost predicate Valid()
      reads this
    {
      State().Valid()
    }

    /** An empty database whose first recipe will get id 1. */
    constructor ()
      ensures Valid()
      ensures State() == Db([], [], [], [], [], {}, {}, {}, 1)
    {
      users, tags, ingredients, recipes, joinRows := [], [], [], [], [];
      follows, favorites, carts := {}, {}, {};
      nextRecipeId := 1;
    }

    /** Replaces one of the two (user, recipe) tables. */
    method SetPairs(kind: Association, pairs: set<(UserId, RecipeId)>)
      modifies this
      ensures State() == old(State()).WithPairs(kind, pairs)
    {
      if kind == Favorite {
        favorites := pairs;
      } else {
        carts := pairs;
      }
    }
  }
}
